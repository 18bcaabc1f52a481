/** The bus over whole runs: a write burst reaches RAM unmixed, and every response beat is
    taken once, in order, by the cache whose tag it carries. */
module CacheBus {
  import opened Lanes
  import opened DataCache
  import opened SystemBus
  import opened Arbiters
  import opened CacheInvariant
  import opened CacheSteps
  import opened CacheMemory

  // ---------------------------------------------------------------- bursts

  /** At every clock of the run, from the first state to the last, the data cache drives the
      bus and the other cache does not. */
  ghost predicate BusHeld(m: Machine, p: Proc, xs: seq<Input>)
    requires Legal(m, p, xs)
    decreases |xs|
  {
    DataOnBus(m) && !FetchOnBus(m) && (xs == [] || BusHeld(Cycle(m, xs[0]), xs[0].proc, xs[1..]))
  }

  /** What drives the bus during a burst: the address, then the words of the row in order. */
  lemma BurstWires(m: Machine, p: Proc)
    requires Inv(m, p) && m.d.state == StateC && DataOnBus(m)
    ensures Sized(m.d) && 1 <= m.d.counter <= 9 && m.d.reqtag == WRITE_TAG && !FetchOnBus(m)
    ensures m.d.req == if m.d.counter == 1 then LineAt(m.d, Row(p.line)) * 64
                       else Val(WordOf(m.d.lines[Row(p.line)], m.d.counter - 2))
  {
    hide RamLine, Val, CleanOk, BurstOk, ResponsesOk, WordOf;
  }

  lemma BurstOnBus(m: Machine, p: Proc)
    requires Sized(m.d) && BurstOk(m, p) && m.d.state == StateC && m.d.counter >= 2
    ensures DataOnBus(m)
  {
    hide RamLine, WordOf;
  }

  /** Once its address beat is on the bus a burst goes on at every clock. */
  lemma BurstGoesOn(m: Machine, p: Proc, x: Input)
    requires Inv(m, p) && Allowed(m, p, x) && m.d.state == StateC && DataOnBus(m) && m.d.counter <= 8
    ensures Shaped(m) && Inv(Cycle(m, x), x.proc) && x.proc == p
    ensures Cycle(m, x).d.state == StateC && Cycle(m, x).d.counter == m.d.counter + 1 && DataOnBus(Cycle(m, x))
    ensures Cycle(m, x).d.tags == m.d.tags && Cycle(m, x).d.lines == m.d.lines
  {
    hide Cycle, Inv, BurstOk, NewData, RamLine, WriteWord, WordOf, Val;
    InvShaped(m, p);
    StepBeat(m, p, x);
    BeatRegisters(m, p, x);
    BeatBurst(m, p, x);
    BurstOnBus(Cycle(m, x), p);
  }

  lemma LastWord(m: Machine, p: Proc)
    requires Inv(m, p) && m.d.state == StateC && DataOnBus(m) && m.d.counter == 9
    ensures Sized(m.d) && RamLine(m.bus.ram, LineAt(m.d, Row(p.line))) == m.d.lines[Row(p.line)]
  {
    hide RamLine, WordOf, CleanOk, ResponsesOk;
    LineWords(RamLine(m.bus.ram, LineAt(m.d, Row(p.line))), m.d.lines[Row(p.line)]);
  }

  lemma OtherLines(m: Machine, p: Proc, x: Input, l: nat)
    requires Inv(m, p) && Allowed(m, p, x) && m.d.state == StateC && DataOnBus(m) && m.d.counter <= 8
    ensures Shaped(m) && (l != LineAt(m.d, Row(p.line)) ==> RamLine(Cycle(m, x).bus.ram, l) == RamLine(m.bus.ram, l))
  {
    hide Cycle, Inv, RamLine, WordOf, WriteWord;
    InvShaped(m, p);
    StepBeat(m, p, x);
    InvRange(m, p);
    var n, w := LineAt(m.d, Row(p.line)), m.d.counter - 1;
    if l != n { BeatElsewhere(m.bus.ram, n, w, WordOf(m.d.lines[Row(p.line)], w), l); }
  }

  /** The clocks from a beat on the bus to the last: nothing else drives the bus, and then the
      old line is in RAM and every other line is as it was. */
  lemma {:induction false} BurstArrives(m: Machine, p: Proc, xs: seq<Input>, l: nat)
    requires Inv(m, p) && ValidProc(p) && Legal(m, p, xs) && m.d.state == StateC && DataOnBus(m)
    requires m.d.counter + |xs| == 9
    ensures Sized(m.d) && BusHeld(m, p, xs)
    ensures var n := After(m, p, xs);
            n.d.state == StateC && n.d.counter == 9 && n.d.lines == m.d.lines && n.d.tags == m.d.tags &&
            RamLine(n.bus.ram, l) == if l == LineAt(m.d, Row(p.line)) then m.d.lines[Row(p.line)] else RamLine(m.bus.ram, l)
    decreases |xs|
  {
    hide Cycle, Inv, RamLine, WordOf, WriteWord, BurstOk, Allowed;
    BurstWires(m, p);
    if xs == [] {
      LastWord(m, p);
    } else {
      LegalStep(m, p, xs);
      BurstGoesOn(m, p, xs[0]);
      BurstArrives(Cycle(m, xs[0]), p, xs[1..], l);
      OtherLines(m, p, xs[0], l);
    }
  }

  lemma InvAck(m: Machine, p: Proc)
    requires Inv(m, p)
    ensures AckOk(m)
  {
  }

  /** A cache samples an acknowledge at a clock only if its own request drives the bus. */
  lemma OwnAcknowledge(m: Machine, p: Proc, xs: seq<Input>)
    requires Inv(m, p) && ValidProc(p) && Legal(m, p, xs)
    ensures var n := After(m, p, xs);
            var g := Arbitrate(n.arb, n.ic, n.d, n.bus.reqack);
            g.dcReqack == DataOnBus(n) && g.icReqack == FetchOnBus(n) && !(g.dcReqack && g.icReqack)
  {
    hide Inv, After, Legal, Arbitrate;
    RunKeeps(m, p, xs);
    InvAck(After(m, p, xs), Held(p, xs));
    AckIsOwn(After(m, p, xs));
  }

  // ---------------------------------------------------------------- responses

  /** The beats of the reads that complete, in order of completion. */
  ghost function Arriving(b: Bus, done: seq<nat>): seq<Beat> {
    if done == [] then []
    else
      var c, a := CompleteAll(b, done[..|done| - 1]), done[|done| - 1];
      Arriving(b, done[..|done| - 1]) + if a in c.addrToTag then Beats(c.ram, a, c.addrToTag[a], 8) else []
  }

  lemma {:induction false} ArrivingQueued(b: Bus, done: seq<nat>)
    ensures CompleteAll(b, done).txQueue == b.txQueue + Arriving(b, done)
  {
    hide Beats;
    if done == [] {
      assert b.txQueue + [] == b.txQueue;
    } else {
      ArrivingQueued(b, done[..|done| - 1]);
    }
  }

  /** The beat taken at a clock: the one on the pins, if a cache answers it. */
  ghost function Taken(m: Machine, x: Input): seq<Beat>
    requires Shaped(m) && ValidProc(x.proc)
  {
    if (Cycle(m, x).d.respack || Cycle(m, x).ic.respack) && m.bus.txQueue != [] then [m.bus.txQueue[0]] else []
  }

  lemma BusQueue(n: Machine)
    ensures NewBus(n).txQueue == n.bus.txQueue
  {
    hide WriteWord, Around;
  }

  lemma NextQueue(m: Machine, x: Input, respack: bool)
    requires m.bus.txQueue != [] || !respack
    ensures (if respack then [m.bus.txQueue[0]] else []) + Present(Pop(CompleteAll(m.bus, x.done), respack)).txQueue ==
            m.bus.txQueue + Arriving(m.bus, x.done)
  {
    hide CompleteAll, Arriving;
    ArrivingQueued(m.bus, x.done);
    var c := CompleteAll(m.bus, x.done).txQueue;
    if respack { assert [c[0]] + c[1..] == c; }
  }

  /** One clock: a taken beat leaves the front, new ones join the back; the two caches never
      take the same one, each takes only its own, and the data cache takes word `counter` of
      the line it asked for. */
  lemma BeatStep(m: Machine, p: Proc, x: Input)
    requires Inv(m, p) && Allowed(m, p, x)
    ensures Shaped(m)
    ensures Taken(m, x) + Cycle(m, x).bus.txQueue == m.bus.txQueue + Arriving(m.bus, x.done)
    ensures !(Cycle(m, x).d.respack && Cycle(m, x).ic.respack)
    ensures Cycle(m, x).d.respack ==>
              m.d.counter < 8 && Taken(m, x) == [Beat(WordOf(RamLine(m.bus.ram, p.line), m.d.counter), READ_TAG)]
    ensures Cycle(m, x).ic.respack ==> Taken(m, x) != [] && Taken(m, x)[0].tag == FETCH_TAG
  {
    hide Cycle, NewData, NewFetch, NewBus, RamLine, WordOf, Arriving, CompleteAll, Present, CacheOk, BurstOk, RespOk, DataBeats;
    InvShaped(m, p);
    CycleParts(m, x);
    BusQueue(Middle(m, x));
    RespackOwner(m, p, x);
    QueueStep(m, p, x);
    NextQueue(m, x, NewFetch(m, x).respack || NewData(m, x).respack);
  }

  ghost function TakenIn(m: Machine, p: Proc, xs: seq<Input>): seq<Beat>
    requires Legal(m, p, xs)
    decreases |xs|
  {
    if xs == [] then [] else Taken(m, xs[0]) + TakenIn(Cycle(m, xs[0]), xs[0].proc, xs[1..])
  }

  ghost function ArrivedIn(m: Machine, p: Proc, xs: seq<Input>): seq<Beat>
    requires Legal(m, p, xs)
    decreases |xs|
  {
    if xs == [] then [] else Arriving(m.bus, xs[0].done) + ArrivedIn(Cycle(m, xs[0]), xs[0].proc, xs[1..])
  }

  lemma Rejoin(t: seq<Beat>, q: seq<Beat>, b: seq<Beat>, a: seq<Beat>, s: seq<Beat>, e: seq<Beat>, r: seq<Beat>)
    requires t + q == b + a && s + e == q + r
    ensures (t + s) + e == b + (a + r)
  {
    assert (t + s) + e == t + (s + e) == t + (q + r) == (t + q) + r == (b + a) + r == b + (a + r);
  }

  /** Over a run, the beats taken and then those still queued are those that were queued and
      then those that arrived: none lost, repeated or out of turn. */
  lemma {:induction false} BeatsConserved(m: Machine, p: Proc, xs: seq<Input>)
    requires Inv(m, p) && ValidProc(p) && Legal(m, p, xs)
    ensures TakenIn(m, p, xs) + After(m, p, xs).bus.txQueue == m.bus.txQueue + ArrivedIn(m, p, xs)
    decreases |xs|
  {
    hide Cycle, Inv, Arriving, Taken, Allowed, Agrees;
    if xs == [] {
      assert [] + m.bus.txQueue == m.bus.txQueue + [];
    } else {
      LegalStep(m, p, xs);
      ClockAgrees(m, p, xs[0], 0);
      KeepsOnly(m, p, xs[0], 0);
      BeatStep(m, p, xs[0]);
      var n, q := Cycle(m, xs[0]), xs[0].proc;
      BeatsConserved(n, q, xs[1..]);
      Rejoin(Taken(m, xs[0]), n.bus.txQueue, m.bus.txQueue, Arriving(m.bus, xs[0].done),
             TakenIn(n, q, xs[1..]), After(n, q, xs[1..]).bus.txQueue, ArrivedIn(n, q, xs[1..]));
    }
  }
}
