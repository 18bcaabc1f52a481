/** The memory side of the bus, `System::tick` and `System::dram_read_complete`: RAM,
    write bursts, outstanding reads and the queue of response beats. */
module SystemBus {
  import opened Bits
  import opened Lanes
  import opened DataCache

  datatype Beat = Beat(data: seq<byte>, tag: nat)

  datatype Bus = Bus(
    ram: seq<byte>, rxCount: nat, xferAddr: nat, addrToTag: map<nat, nat>, txQueue: seq<Beat>,
    reqack: bool, resp: Resp)

  /** `cse502_be64toh`: all eight bytes reversed. */
  function Reversed(w: seq<byte>): (r: seq<byte>)
    requires |w| == 8
    ensures |r| == 8
  {
    [w[7], w[6], w[5], w[4], w[3], w[2], w[1], w[0]]
  }

  /** The doubleword of RAM at `a`, as it goes over the bus. */
  function RamWord(ram: seq<byte>, a: nat): (w: seq<byte>)
    ensures |w| == 8
  {
    if a + 8 <= |ram| then Reversed(ram[a..a + 8]) else NoLanes(8)
  }

  function WriteWord(ram: seq<byte>, a: nat, w: seq<byte>): (r: seq<byte>)
    requires |w| == 8
    ensures |r| == |ram|
  {
    if a + 8 <= |ram| then ram[..a] + Reversed(w) + ram[a + 8..] else ram
  }

  /** Within the 64 bytes of a line, starting from the word asked for. */
  function Around(address: nat, i: nat): nat {
    address / 64 * 64 + (address + 8 * i) % 64
  }

  lemma AroundIs(address: nat, i: nat)
    ensures Around(address, i) == address / 64 * 64 + (address + 8 * i) % 64
  {
  }

  function Beats(ram: seq<byte>, address: nat, tag: nat, n: nat): (q: seq<Beat>)
    ensures |q| == n
  {
    seq(n, (i: nat) => Beat(RamWord(ram, Around(address, i)), tag))
  }

  /** `dram_read_complete`. */
  function Complete(b: Bus, address: nat): Bus
    requires address in b.addrToTag
  {
    b.(txQueue := b.txQueue + Beats(b.ram, address, b.addrToTag[address], 8), addrToTag := b.addrToTag - {address})
  }

  /** Reads complete in any order and at any time; only outstanding ones can. */
  function CompleteAll(b: Bus, done: seq<nat>): Bus {
    if done == [] then b
    else
      var c := CompleteAll(b, done[..|done| - 1]);
      var a := done[|done| - 1];
      if a in c.addrToTag then Complete(c, a) else c
  }

  /** The response pins show the front of the queue. */
  function Present(b: Bus): Bus {
    b.(resp := if b.txQueue != [] then Resp(true, b.txQueue[0].data, b.txQueue[0].tag)
               else Resp(false, [0xaa, 0xaa, 0xaa, 0xaa, 0xaa, 0xaa, 0xaa, 0xaa], 0xaaaa % 8192))
  }

  function Pop(b: Bus, respack: bool): Bus {
    if b.txQueue != [] && respack then b.(txQueue := b.txQueue[1..]) else b
  }

  predicate IsMemory(tag: nat) { tag / 256 % 16 == 1 }

  predicate IsWrite(tag: nat) { tag / 4096 % 2 == 0 }

  /** A request on the bus: a beat of a burst in progress, or a new transfer. */
  function Accept(b: Bus, req: nat, tag: nat): Bus {
    if b.rxCount > 0 then
      var c := if IsMemory(tag) then b.(ram := WriteWord(b.ram, Around(b.xferAddr, 8 - Min(b.rxCount, 8)), ToLanes(req, 8))) else b;
      c.(rxCount := b.rxCount - 1)
    else if !IsMemory(tag) then b.(rxCount := 0)
    else
      var c := b.(rxCount := if IsWrite(tag) then 8 else 0, xferAddr := req);
      if req in b.addrToTag || IsWrite(tag) then c else c.(addrToTag := b.addrToTag[req := tag])
  }

  /** `tick(1)`. */
  function TickHigh(b: Bus, done: seq<nat>, reqcyc: bool, req: nat, tag: nat, respack: bool): Bus {
    var c := Present(Pop(CompleteAll(b, done), respack));
    if reqcyc then Accept(c, req, tag) else c.(reqack := false, rxCount := 0)
  }

  /** `tick(0)`, with memory that always accepts. */
  function TickLow(b: Bus, reqcyc: bool): Bus {
    if reqcyc then b.(reqack := true) else b
  }

  /** The bus side of `System`. */
  class MemorySystem {
    var ram: array<byte>
    var rxCount: nat                // rx_count
    var xferAddr: nat               // xfer_addr
    var addrToTag: map<nat, nat>    // addr_to_tag
    var txQueue: seq<Beat>          // tx_queue
    var reqack: bool                // bus_reqack
    var resp: Resp                  // bus_respcyc, bus_resp, bus_resptag

    ghost function State(): Bus
      reads this, ram
    {
      Bus(ram[..], rxCount, xferAddr, addrToTag, txQueue, reqack, resp)
    }

    constructor (ram: array<byte>)
      ensures State() == Bus(ram[..], 0, 0, map[], [], false, Resp(false, NoLanes(8), 0)) && this.ram == ram
    {
      this.ram := ram;
      rxCount, xferAddr, addrToTag, txQueue, reqack, resp := 0, 0, map[], [], false, Resp(false, NoLanes(8), 0);
    }

    /** `dram_read_complete`. */
    method DramReadComplete(address: nat)
      requires address in addrToTag
      modifies this`txQueue, this`addrToTag
      ensures State() == Complete(old(State()), address)
      ensures |txQueue| == |old(txQueue)| + 8 && old(txQueue) <= txQueue
      ensures forall k :: 0 <= k < 8 ==>
        txQueue[|old(txQueue)| + k] == Beat(RamWord(ram[..], address / 64 * 64 + (address + 8 * k) % 64), old(addrToTag)[address])
    {
      hide RamWord, Around;
      ghost var q := txQueue;
      var tag := addrToTag[address];
      for i := 0 to 8
        invariant txQueue == q + Beats(ram[..], address, tag, i)
        invariant addrToTag == old(addrToTag)
      {
        txQueue := txQueue + [Beat(RamWord(ram[..], Around(address, i)), tag)];
        assert Beats(ram[..], address, tag, i + 1) == Beats(ram[..], address, tag, i) + [Beat(RamWord(ram[..], Around(address, i)), tag)];
      }
      addrToTag := addrToTag - {address};
      forall k | 0 <= k < 8
        ensures txQueue[|q| + k] == Beat(RamWord(ram[..], address / 64 * 64 + (address + 8 * k) % 64), tag)
      {
        assert txQueue[|q| + k] == Beats(ram[..], address, tag, 8)[k];
        AroundIs(address, k);
      }
    }

    /** `*(uint64_t*)&ram[a] = cse502_be64toh(w)`. */
    method StoreWord(a: nat, w: seq<byte>)
      requires |w| == 8
      modifies ram
      ensures ram[..] == WriteWord(old(ram[..]), a, w)
    {
      if a + 8 <= ram.Length {
        for i := 0 to 8
          invariant forall j :: 0 <= j < ram.Length ==>
            ram[j] == if a <= j < a + i then Reversed(w)[j - a] else old(ram[..])[j]
        {
          ram[a + i] := Reversed(w)[i];
        }
      }
    }

    /** The part of `tick` that looks at the request pins. */
    method Request(req: nat, tag: nat)
      modifies this`rxCount, this`xferAddr, this`addrToTag, ram
      ensures State() == Accept(old(State()), req, tag)
    {
      hide WriteWord, Around;
      if rxCount > 0 {
        if IsMemory(tag) {
          StoreWord(Around(xferAddr, 8 - Min(rxCount, 8)), ToLanes(req, 8));
        }
        rxCount := rxCount - 1;
        return;
      }
      rxCount := if IsMemory(tag) && IsWrite(tag) then 8 else 0;
      if IsMemory(tag) {
        xferAddr := req;
        if req !in addrToTag && !IsWrite(tag) {
          addrToTag := addrToTag[req := tag];
        }
      }
    }

    /** `tick(1)`: completed reads, the response pins, then the request pins. */
    method Tick1(done: seq<nat>, reqcyc: bool, req: nat, tag: nat, respack: bool)
      modifies this, ram
      ensures ram == old(ram) && State() == TickHigh(old(State()), done, reqcyc, req, tag, respack)
    {
      hide Complete, Accept;
      ghost var b := State();
      assert done[..0] == [];
      for i := 0 to |done|
        invariant ram == old(ram) && State() == CompleteAll(b, done[..i])
      {
        assert done[..i + 1][..i] == done[..i];
        if done[i] in addrToTag { DramReadComplete(done[i]); }
      }
      assert done[..|done|] == done;
      if |txQueue| > 0 && respack { txQueue := txQueue[1..]; }
      if |txQueue| > 0 {
        resp := Resp(true, txQueue[0].data, txQueue[0].tag);
      } else {
        resp := Resp(false, [0xaa, 0xaa, 0xaa, 0xaa, 0xaa, 0xaa, 0xaa, 0xaa], 0xaaaa % 8192);
      }
      if reqcyc {
        Request(req, tag);
      } else {
        reqack, rxCount := false, 0;
      }
    }

    /** `tick(0)`. */
    method Tick0(reqcyc: bool)
      modifies this`reqack
      ensures State() == TickLow(old(State()), reqcyc)
    {
      if reqcyc { reqack := true; }
    }
  }
}
