/** Whether an access is ever acknowledged. A request of the data cache for a line that is already
    being read for the instruction cache is dropped by memory, and then the access hangs; any other
    is acknowledged within 37 clocks, not counting those spent waiting for memory. */
module CacheProgress {
  import opened Bits
  import opened Lanes
  import opened DataCache
  import opened SystemBus
  import opened Arbiters
  import opened CacheInvariant
  import opened CacheResponses
  import opened CacheSteps
  import opened CacheMemory
  import opened CacheBus
  import opened CacheFetch

  // ---------------------------------------------------------------- reads of the data cache

  predicate Reading(b: Bus, a: nat) {
    a in b.addrToTag && b.addrToTag[a] == READ_TAG
  }

  /** Nothing for the data cache is queued, and nothing will be. */
  ghost predicate NoneComing(b: Bus) {
    TagBeats(b.txQueue, READ_TAG) == [] && forall a :: !Reading(b, a)
  }

  /** The data cache waits for beats that nobody will send. */
  ghost predicate Dropped(m: Machine) {
    ((m.d.state == StateD && DataOnBus(m)) || (m.d.state == StateE && m.d.counter < 8)) && NoneComing(m.bus)
  }

  /** The line is being read already, for whichever cache, and the read does not complete now. */
  predicate Outstanding(m: Machine, x: Input, line: nat) {
    64 * line in m.bus.addrToTag && 64 * line !in x.done
  }

  /** How the registers of the data cache move, given what is on the pins. */
  lemma DataMoves(m: Machine, p: Proc, x: Input)
    requires Inv(m, p) && Allowed(m, p, x) && Shaped(m)
    ensures var c, n := m.d, NewData(m, x);
            (n.ack <==> c.state == StateB && Hit(c, p)) && (n.reqcyc ==> n.state == StateC || n.state == StateD) &&
            (n.respack <==> c.state == StateE && m.bus.txQueue != [] && m.bus.txQueue[0].tag == READ_TAG) &&
            match c.state
            case StateA => n.state == (if x.proc.req then StateB else StateA)
            case StateB => n.state == (if Hit(c, p) then StateA else if c.outDirty then StateC else StateD) &&
                           (n.state == StateC ==> n.counter == 0) && !n.reqcyc
            case StateC =>
              c.counter <= 9 &&
              if c.counter == 0 then n.state == StateC && n.counter == 1 && n.reqcyc
              else if !DataOnBus(m) then n.state == StateC && n.counter == c.counter && n.reqcyc
              else if c.counter < 9 then n.state == StateC && n.counter == c.counter + 1 && n.reqcyc
              else n.state == StateD && !n.reqcyc
            case StateD =>
              if DataOnBus(m) then n.state == StateE && n.counter == 0 && !n.reqcyc
              else n.state == StateD && n.reqcyc && n.reqtag == READ_TAG && n.req == 64 * p.line
            case StateE =>
              !n.reqcyc && c.counter <= 8 &&
              if n.respack then n.counter == c.counter + 1 && (c.counter < 8 ==> n.state == StateE)
              else n.counter == c.counter && n.state == if c.counter == 8 then StateB else StateE
  {
    hide RamLine, WordOf, CleanOk, BurstOk, RespOk, Masked, LoadValue, StoreData, StoreStart, StoreCount, FetchOk;
  }

  lemma BeatsTagged(ram: seq<byte>, a: nat, tag: nat)
    ensures TagBeats(Beats(ram, a, tag, 8), READ_TAG) != [] <==> tag == READ_TAG
  {
    hide RamWord, Around, TagBeats;
    var q := Beats(ram, a, tag, 8);
    if tag == READ_TAG { AllBeats(q, tag); } else { NoBeats(q, READ_TAG); }
  }

  /** A read that completes queues its beats; while there is none nothing is queued. */
  lemma {:induction false} ReadArrives(b: Bus, done: seq<nat>, a: nat)
    ensures Reading(b, a) && a in done ==> TagBeats(Arriving(b, done), READ_TAG) != []
    ensures (forall l :: l in done ==> !Reading(b, l)) ==> TagBeats(Arriving(b, done), READ_TAG) == []
  {
    if done != [] {
      hide CompleteAll, Beats;
      var t, l := done[..|done| - 1], done[|done| - 1];
      var c := CompleteAll(b, t);
      ReadArrives(b, t, a);
      StillThere(b, t, l);
      StillThere(b, t, a);
      var q := if l in c.addrToTag then Beats(c.ram, l, c.addrToTag[l], 8) else [];
      BeatsConcat(Arriving(b, t), q, READ_TAG);
      if l in c.addrToTag { BeatsTagged(c.ram, l, c.addrToTag[l]); }
      assert l in done && (forall k :: k in t ==> k in done) && (a in done ==> a in t || a == l);
    }
  }

  lemma Shorten<T>(t: seq<T>, w: seq<T>, u: seq<T>, v: seq<T>)
    requires t + w == u + v && |t| <= 1 && (t != [] ==> u != [])
    ensures w == if t != [] then u[1..] + v else u + v
  {
    assert w == (t + w)[|t|..];
    if t != [] { assert (u + v)[1..] == u[1..] + v; }
  }

  lemma OneBeat(t: seq<Beat>, tag: nat)
    requires |t| <= 1
    ensures TagBeats(t, tag) == if t != [] && t[0].tag == tag then [t[0].data] else []
  {
  }

  lemma FrontBeat(b: seq<Beat>, tag: nat)
    requires b != [] && b[0].tag == tag
    ensures TagBeats(b, tag) != []
  {
  }

  lemma TakenBeats(t: seq<Beat>, q: seq<Beat>, b: seq<Beat>, a: seq<Beat>, own: bool)
    requires t + q == b + a && |t| <= 1 && (own ==> t != []) && (t != [] ==> b != [] && t[0] == b[0] && (own <==> t[0].tag == READ_TAG))
    ensures var u, v := TagBeats(b, READ_TAG), TagBeats(a, READ_TAG);
            (own ==> u != []) && TagBeats(q, READ_TAG) == if own then u[1..] + v else u + v
  {
    hide TagBeats;
    BeatsConcat(t, q, READ_TAG);
    BeatsConcat(b, a, READ_TAG);
    OneBeat(t, READ_TAG);
    if own { FrontBeat(b, READ_TAG); }
    Shorten(TagBeats(t, READ_TAG), TagBeats(q, READ_TAG), TagBeats(b, READ_TAG), TagBeats(a, READ_TAG));
  }

  /** The beats for the data cache after a clock. */
  lemma BeatsNext(m: Machine, p: Proc, x: Input)
    requires Inv(m, p) && Allowed(m, p, x) && Shaped(m)
    ensures var t, u := TagBeats(m.bus.txQueue, READ_TAG), TagBeats(Arriving(m.bus, x.done), READ_TAG);
            (NewData(m, x).respack ==> t != []) &&
            TagBeats(Cycle(m, x).bus.txQueue, READ_TAG) == if NewData(m, x).respack then t[1..] + u else t + u
  {
    hide Cycle, NewData, NewFetch, Inv, Arriving, WordOf, RamLine, TagBeats, NewQueue, NewBus;
    BeatStep(m, p, x);
    DataMoves(m, p, x);
    InvAck(m, p);
    CycleParts(m, x);
    TakenBeats(Taken(m, x), Cycle(m, x).bus.txQueue, m.bus.txQueue, Arriving(m.bus, x.done), NewData(m, x).respack);
  }

  /** What memory makes of the request pins. */
  lemma BusReads(n: Machine, line: nat, a: nat)
    requires FetchOnBus(n) ==> n.ic.reqtag == FETCH_TAG
    requires DataOnBus(n) ==> n.d.reqtag == WRITE_TAG || (n.d.reqtag == READ_TAG && n.bus.rxCount == 0 && n.d.req == 64 * line)
    ensures Reading(NewBus(n), a) <==>
            Reading(n.bus, a) || (DataOnBus(n) && n.d.reqtag == READ_TAG && a == 64 * line && a !in n.bus.addrToTag)
  {
    hide WriteWord, Around;
  }

  lemma QueueReads(m: Machine, x: Input, a: nat)
    requires Shaped(m) && ValidProc(x.proc)
    ensures a in NewQueue(m, x).addrToTag <==> a in m.bus.addrToTag && a !in x.done
    ensures Reading(NewQueue(m, x), a) <==> Reading(m.bus, a) && a !in x.done
  {
    hide CompleteAll;
    StillThere(m.bus, x.done, a);
  }

  lemma DriveTag(m: Machine, p: Proc)
    requires Inv(m, p) && DataOnBus(m)
    ensures if m.d.state == StateD then m.d.reqtag == READ_TAG && m.d.req == 64 * p.line
            else m.d.state == StateC && m.d.counter >= 1 && m.d.reqtag == WRITE_TAG
    ensures m.d.state == StateC || m.bus.rxCount == 0
  {
    hide RamLine, WordOf, CleanOk, ResponsesOk;
  }

  lemma NoBurstInD(m: Machine, p: Proc)
    requires Inv(m, p) && m.d.state != StateC
    ensures m.bus.rxCount == 0
  {
    hide RamLine, WordOf, CleanOk, ResponsesOk;
  }

  /** The reads of the data cache after a clock: its own request joins them unless the line is
      outstanding. */
  lemma ReadsNext(m: Machine, p: Proc, x: Input, a: nat)
    requires Inv(m, p) && Allowed(m, p, x) && Shaped(m) && ValidProc(p) && m.d.state != StateA
    ensures var n := Cycle(m, x);
            Reading(n.bus, a) <==>
            (Reading(m.bus, a) && a !in x.done) ||
            (n.d.state == StateD && DataOnBus(n) && a == 64 * p.line && !Outstanding(m, x, p.line))
  {
    hide Cycle, NewData, NewFetch, NewBus, NewQueue, Inv, Agrees, RamLine, WordOf;
    ClockAgrees(m, p, x, 0);
    KeepsOnly(m, p, x, 0);
    DataMoves(m, p, x);
    InvAck(m, p);
    CycleParts(m, x);
    QueueReads(m, x, a);
    QueueCount(m, p, x);
    var n := Middle(m, x);
    if FetchOnBus(n) { FetchTagOf(m, p, x); }
    if DataOnBus(n) {
      DriveTag(Cycle(m, x), p);
      if m.d.state != StateC { NoBurstInD(m, p); }
    }
    BusReads(n, p.line, a);
  }

  lemma WhatIsRead(m: Machine, p: Proc)
    requires Inv(m, p)
    ensures var t := TagBeats(m.bus.txQueue, READ_TAG);
            match m.d.state
            case StateD => t == [] && forall a :: Reading(m.bus, a) ==> DataOnBus(m) && a == 64 * p.line
            case StateE => m.d.counter <= 8 && (t != [] ==> |t| == 8 - m.d.counter) &&
                           forall a :: Reading(m.bus, a) ==> a == 64 * p.line && m.d.counter == 0 && t == []
            case _ => t == [] && forall a :: !Reading(m.bus, a)
  {
    hide RamLine, WordOf, CleanOk, BurstOk, TagBeats;
  }

  // ---------------------------------------------------------------- dropped requests

  /** What a clock makes of the data cache, and of what is under way for it. */
  lemma Moves(m: Machine, p: Proc, x: Input)
    requires Inv(m, p) && Allowed(m, p, x) && Shaped(m) && ValidProc(p)
    ensures Cycle(m, x).d == NewData(m, x) && Cycle(m, x).ic == NewFetch(m, x) && Cycle(m, x).arb == NewOwner(m)
    ensures Inv(Cycle(m, x), x.proc) && (m.d.state != StateA ==> x.proc == p)
  {
    hide Cycle, NewData, NewFetch, NewBus, NewQueue, Inv, Agrees;
    ClockAgrees(m, p, x, 0);
    KeepsOnly(m, p, x, 0);
    InvAck(m, p);
    CycleParts(m, x);
  }

  /** A request is dropped exactly if it gets the bus while its line is outstanding. */
  lemma DroppedExactly(m: Machine, p: Proc, x: Input)
    requires Inv(m, p) && Allowed(m, p, x) && Shaped(m) && ValidProc(p) && m.d.state != StateA && !Dropped(m)
    ensures var n := Cycle(m, x);
            Dropped(n) <==> n.d.state == StateD && DataOnBus(n) && Outstanding(m, x, p.line)
  {
    hide Cycle, NewData, NewFetch, Inv, TagBeats, Arriving;
    var n := Cycle(m, x);
    Moves(m, p, x);
    DataMoves(m, p, x);
    BeatsNext(m, p, x);
    WhatIsRead(m, p);
    forall a ensures Reading(n.bus, a) <==>
                     (Reading(m.bus, a) && a !in x.done) ||
                     (n.d.state == StateD && DataOnBus(n) && a == 64 * p.line && !Outstanding(m, x, p.line)) {
      ReadsNext(m, p, x, a);
    }
    ReadArrives(m.bus, x.done, 64 * p.line);
  }

  /** And then it is never answered: */
  lemma DroppedStays(m: Machine, p: Proc, x: Input)
    requires Inv(m, p) && Allowed(m, p, x) && Shaped(m) && ValidProc(p) && Dropped(m)
    ensures Dropped(Cycle(m, x)) && !Cycle(m, x).d.ack
  {
    hide Cycle, NewData, NewFetch, Inv, TagBeats, Arriving;
    var n := Cycle(m, x);
    Moves(m, p, x);
    DataMoves(m, p, x);
    BeatsNext(m, p, x);
    forall a ensures !Reading(n.bus, a) {
      ReadsNext(m, p, x, a);
    }
    ReadArrives(m.bus, x.done, 0);
  }

  /** in no run, however long, is anything acknowledged any more. */
  lemma {:induction false} NeverAnswered(m: Machine, p: Proc, xs: seq<Input>)
    requires Inv(m, p) && ValidProc(p) && Legal(m, p, xs) && Dropped(m)
    ensures Accesses(m, p, xs) == [] && Dropped(After(m, p, xs))
    decreases |xs|
  {
    hide Cycle, Inv, Allowed, Dropped, Agrees;
    if xs != [] {
      LegalStep(m, p, xs);
      DroppedStays(m, p, xs[0]);
      ClockAgrees(m, p, xs[0], 0);
      KeepsOnly(m, p, xs[0], 0);
      NeverAnswered(Cycle(m, xs[0]), xs[0].proc, xs[1..]);
    }
  }

  // ---------------------------------------------------------------- the way to the acknowledge

  /** How many beats have to be taken until the last one for the data cache has been. */
  ghost function Span(q: seq<Beat>): nat {
    if TagBeats(q, READ_TAG) == [] then 0 else 1 + Span(q[1..])
  }

  lemma {:induction false} SpanConcat(q: seq<Beat>, s: seq<Beat>)
    requires TagBeats(s, READ_TAG) == []
    ensures Span(q + s) == Span(q)
  {
    BeatsConcat(q, s, READ_TAG);
    assert TagBeats(q, READ_TAG) + [] == TagBeats(q, READ_TAG);
    if TagBeats(q, READ_TAG) != [] {
      assert (q + s)[1..] == q[1..] + s;
      SpanConcat(q[1..], s);
    }
  }

  lemma {:induction false} SpanMost(q: seq<Beat>)
    requires BeatsOk(q)
    ensures Span(q) <= |TagBeats(q, READ_TAG)| + |TagBeats(q, FETCH_TAG)|
  {
    if TagBeats(q, READ_TAG) != [] {
      assert forall i :: 0 <= i < |q[1..]| ==> q[1..][i] == q[i + 1];
      SpanMost(q[1..]);
    }
  }

  /** After the instruction cache has had the bus it waits for its line. */
  predicate ArbOk(m: Machine) {
    m.arb == InstructionSide ==> m.ic.reqcyc || m.ic.state == StateE
  }

  /** How many clocks until a request of the data cache has the bus. */
  ghost function BusWait(m: Machine): nat {
    if DataOnBus(m) then 0 else if FetchOnBus(m) then 2 else 1
  }

  /** How many clocks an access still takes at most, not counting those spent waiting for memory. */
  ghost function Left(m: Machine, p: Proc): (n: nat)
    ensures Span(m.bus.txQueue) <= 16 ==> n <= 36
  {
    match m.d.state
    case StateA => 0
    case StateB => if Hit(m.d, p) then 1 else if m.d.outDirty then 36 else 24
    case StateC => if m.d.counter == 0 then 35 else if m.d.counter <= 9 then 33 - m.d.counter + BusWait(m) else 0
    case StateD => if m.d.reqcyc then 20 + BusWait(m) else 23
    case StateE =>
      if m.d.counter >= 8 then 2 else if TagBeats(m.bus.txQueue, READ_TAG) == [] then 19 else 2 + Span(m.bus.txQueue)
  }

  /** The read of the data cache is outstanding, and does not complete at this clock. */
  predicate Waiting(m: Machine, x: Input, line: nat) {
    m.d.state == StateE && m.d.counter < 8 && TagBeats(m.bus.txQueue, READ_TAG) == [] && Outstanding(m, x, line)
  }

  lemma FetchBeats(m: Machine, w: Fetching)
    requires FetchInv(m, w)
    ensures |TagBeats(m.bus.txQueue, FETCH_TAG)| <= 8
    ensures TagBeats(m.bus.txQueue, FETCH_TAG) != [] ==> m.ic.state == StateE
    ensures m.ic.reqcyc ==> m.ic.state == StateD
  {
    hide TagBeats, WordOf;
  }

  lemma SpanNow(m: Machine, p: Proc, w: Fetching)
    requires Inv(m, p) && FetchInv(m, w)
    ensures BeatsOk(m.bus.txQueue) && Span(m.bus.txQueue) <= 16
    ensures m.bus.txQueue != [] && m.bus.txQueue[0].tag == FETCH_TAG ==> m.ic.state == StateE
  {
    hide RamLine, WordOf, CacheOk, BurstOk, Span, FetchInv;
    FetchBeats(m, w);
    WhatIsRead(m, p);
    SpanMost(m.bus.txQueue);
    if m.bus.txQueue != [] && m.bus.txQueue[0].tag == FETCH_TAG { FrontBeat(m.bus.txQueue, FETCH_TAG); }
  }

  lemma FetchRequest(m: Machine, p: Proc, x: Input)
    requires Inv(m, p)
    ensures (m.ic.reqcyc ==> m.ic.state == StateD) && (m.ic.state == StateE ==> !NewFetch(m, x).reqcyc)
  {
  }

  /** Each clock brings a request nearer to the bus, and what has the bus keeps it. */
  lemma BusCloser(m: Machine, p: Proc, x: Input)
    requires Inv(m, p) && Allowed(m, p, x) && Shaped(m) && ValidProc(p) && m.d.state != StateA && ArbOk(m)
    ensures ArbOk(Cycle(m, x))
    ensures m.d.reqcyc && Cycle(m, x).d.reqcyc ==>
              if DataOnBus(m) then DataOnBus(Cycle(m, x)) else BusWait(Cycle(m, x)) < BusWait(m)
  {
    hide Cycle, NewData, NewFetch, Inv;
    Moves(m, p, x);
    FetchMoves(m, p, x);
    FetchRequest(m, p, x);
  }

  lemma NoneQueued(q: seq<Beat>)
    ensures TagBeats(q, READ_TAG) != [] ==> q != []
  {
  }

  lemma TakenRest(t: seq<Beat>, q: seq<Beat>, b: seq<Beat>, a: seq<Beat>)
    requires t + q == b + a && |t| == 1 && b != [] && TagBeats(b, READ_TAG) != [] && Span(b + a) == Span(b)
    ensures Span(q) + 1 == Span(b)
  {
    assert q == (b + a)[1..] by { assert q == (t + q)[1..]; }
  }

  /** While beats are queued for the data cache, one beat is taken at every clock. */
  lemma SpanStep(m: Machine, p: Proc, x: Input, w: Fetching)
    requires Inv(m, p) && Allowed(m, p, x) && Shaped(m) && ValidProc(p) && FetchInv(m, w) && m.d.state == StateE
    requires TagBeats(m.bus.txQueue, READ_TAG) != []
    ensures Span(Cycle(m, x).bus.txQueue) < Span(m.bus.txQueue)
  {
    hide Cycle, NewData, NewFetch, Inv, TagBeats, Arriving, FetchInv;
    Moves(m, p, x);
    DataMoves(m, p, x);
    FetchMoves(m, p, x);
    SpanNow(m, p, w);
    BeatStep(m, p, x);
    WhatIsRead(m, p);
    ReadArrives(m.bus, x.done, 0);
    var q, a := m.bus.txQueue, Arriving(m.bus, x.done);
    SpanConcat(q, a);
    NoneQueued(q);
    assert m.bus.txQueue[0].tag == READ_TAG || m.bus.txQueue[0].tag == FETCH_TAG;
    TakenRest(Taken(m, x), Cycle(m, x).bus.txQueue, q, a);
  }

  lemma TagsKept(m: Machine, x: Input)
    requires Shaped(m) && ValidProc(x.proc) && m.d.state == StateE
    ensures NewData(m, x).tags == m.d.tags
  {
  }

  lemma RefilledHits(m: Machine, p: Proc, n: Machine)
    requires Inv(m, p) && Inv(n, p) && m.d.state == StateE && n.d.state == StateB && n.d.tags == m.d.tags
    ensures Hit(n.d, p)
  {
    hide RamLine, WordOf, CleanOk, BurstOk, ResponsesOk;
  }

  /** The refill: with all words taken the look-up is repeated, and hits. */
  lemma LeftInE(m: Machine, p: Proc, x: Input, w: Fetching)
    requires Inv(m, p) && Allowed(m, p, x) && Shaped(m) && ValidProc(p) && FetchInv(m, w) && FetchInv(Cycle(m, x), Follow(w, m, x))
    requires m.d.state == StateE && !Dropped(m) && !Dropped(Cycle(m, x))
    ensures var n := Cycle(m, x);
            n.d.state != StateA && if Waiting(m, x, p.line) then Left(n, p) <= Left(m, p) else Left(n, p) < Left(m, p)
  {
    hide Cycle, NewData, NewFetch, Inv, TagBeats, Arriving, FetchInv, Span, Follow;
    var n := Cycle(m, x);
    Moves(m, p, x);
    DataMoves(m, p, x);
    BeatsNext(m, p, x);
    WhatIsRead(m, p);
    WhatIsRead(n, p);
    SpanNow(n, p, Follow(w, m, x));
    ReadArrives(m.bus, x.done, 64 * p.line);
    if m.d.counter == 8 {
      TagsKept(m, x);
      if n.d.state == StateB { RefilledHits(m, p, n); }
    } else if TagBeats(m.bus.txQueue, READ_TAG) != [] {
      SpanStep(m, p, x, w);
    }
  }

  lemma Drives(m: Machine, p: Proc)
    requires Inv(m, p)
    ensures m.d.state == StateC ==> (m.d.reqcyc <==> m.d.counter >= 1)
  {
    hide RamLine, WordOf, CleanOk, BurstOk, ResponsesOk;
  }

  /** On the way to the bus, and in the burst. */
  lemma LeftBefore(m: Machine, p: Proc, x: Input)
    requires Inv(m, p) && Allowed(m, p, x) && Shaped(m) && ValidProc(p) && ArbOk(m)
    requires m.d.state == StateC || (m.d.state == StateD && !DataOnBus(m))
    ensures Cycle(m, x).d.state != StateA && Left(Cycle(m, x), p) < Left(m, p)
  {
    hide Cycle, NewData, NewFetch, Inv, TagBeats, Span;
    Moves(m, p, x);
    DataMoves(m, p, x);
    BusCloser(m, p, x);
    Drives(m, p);
  }

  /** One clock: the access is acknowledged, or dropped, or nearer to its acknowledge, or waits for
      memory. */
  lemma Nearer(m: Machine, p: Proc, x: Input, w: Fetching)
    requires Inv(m, p) && Allowed(m, p, x) && Shaped(m) && ValidProc(p) && FetchInv(m, w) && FetchInv(Cycle(m, x), Follow(w, m, x))
    requires ArbOk(m) && m.d.state != StateA && !Dropped(m) && !Dropped(Cycle(m, x))
    ensures var n := Cycle(m, x);
            n.d.ack ||
            (n.d.state != StateA && if Waiting(m, x, p.line) then Left(n, p) <= Left(m, p) else Left(n, p) < Left(m, p))
  {
    hide Cycle, NewData, NewFetch, Inv, TagBeats, Arriving, FetchInv, Span, Follow;
    Moves(m, p, x);
    DataMoves(m, p, x);
    if m.d.state == StateE {
      LeftInE(m, p, x, w);
    } else if m.d.state == StateC || (m.d.state == StateD && !DataOnBus(m)) {
      LeftBefore(m, p, x);
    } else {
      SpanNow(Cycle(m, x), p, Follow(w, m, x));
    }
  }

  /** How many clocks of a run are spent waiting for memory. */
  ghost function Waits(m: Machine, p: Proc, xs: seq<Input>): nat
    requires Legal(m, p, xs)
    decreases |xs|
  {
    if xs == [] then 0
    else (if Waiting(m, xs[0], xs[0].proc.line) then 1 else 0) + Waits(Cycle(m, xs[0]), xs[0].proc, xs[1..])
  }

  lemma {:induction false} Answered(m: Machine, p: Proc, xs: seq<Input>, w: Fetching)
    requires Inv(m, p) && ValidProc(p) && Legal(m, p, xs) && FetchInv(m, w) && ArbOk(m) && m.d.state != StateA && !Dropped(m)
    requires |xs| > Waits(m, p, xs) + Left(m, p)
    ensures Accesses(m, p, xs) != [] || Dropped(After(m, p, xs))
    decreases |xs|
  {
    hide Cycle, Inv, Dropped, Agrees, FetchInv, Follow, Left, Waiting;
    LegalStep(m, p, xs);
    var n := Cycle(m, xs[0]);
    Moves(m, p, xs[0]);
    FetchClock(m, p, xs[0], w);
    BusCloser(m, p, xs[0]);
    if Dropped(n) {
      NeverAnswered(n, p, xs[1..]);
    } else if !n.d.ack {
      Nearer(m, p, xs[0], w);
      Answered(n, p, xs[1..], Follow(w, m, xs[0]));
    }
  }

  lemma ArbStep(m: Machine, p: Proc, x: Input)
    requires Inv(m, p) && Allowed(m, p, x) && Shaped(m)
    ensures ArbOk(Cycle(m, x))
  {
    hide Cycle, NewData, NewFetch, NewBus, NewQueue, Inv;
    InvAck(m, p);
    CycleParts(m, x);
    FetchMoves(m, p, x);
    FetchRequest(m, p, x);
  }

  lemma {:induction false} ArbKeeps(m: Machine, p: Proc, xs: seq<Input>)
    requires Inv(m, p) && ValidProc(p) && Legal(m, p, xs) && ArbOk(m)
    ensures ArbOk(After(m, p, xs))
    decreases |xs|
  {
    hide Cycle, Inv, Agrees, Allowed, ArbOk;
    if xs != [] {
      LegalStep(m, p, xs);
      ArbStep(m, p, xs[0]);
      ClockAgrees(m, p, xs[0], 0);
      KeepsOnly(m, p, xs[0], 0);
      ArbKeeps(Cycle(m, xs[0]), xs[0].proc, xs[1..]);
    }
  }

  lemma ArbAtReset(ram: seq<byte>)
    ensures ArbOk(Initial(ram))
  {
  }

  /** Wherever a run from reset has led: an access under way is acknowledged in the next 37 clocks,
      not counting those spent waiting for memory, or its read has been dropped. */
  lemma AnsweredFromReset(ram: seq<byte>, p: Proc, ys: seq<Input>, xs: seq<Input>)
    requires |ram| >= 0x4000 && ValidProc(p) && InRam(ram, p.line) && Legal(Initial(ram), p, ys)
    requires var m, q := After(Initial(ram), p, ys), Held(p, ys);
             m.d.state != StateA && Legal(m, q, xs) && |xs| >= Waits(m, q, xs) + 37
    ensures var m, q := After(Initial(ram), p, ys), Held(p, ys);
            Accesses(m, q, xs) != [] || Dropped(After(m, q, xs))
  {
    hide Cycle, Inv, Initial, FetchInv, Dropped, Waits, Left, Accesses, Span;
    var m, q, w := After(Initial(ram), p, ys), Held(p, ys), FollowAll(Idle, Initial(ram), p, ys);
    InitialInv(ram, p);
    RunKeeps(Initial(ram), p, ys);
    FetchAtReset(ram);
    FetchKeeps(Initial(ram), p, ys, Idle);
    assert ArbOk(Initial(ram)) by { ArbAtReset(ram); }
    ArbKeeps(Initial(ram), p, ys);
    SpanNow(m, q, w);
    if Dropped(m) { NeverAnswered(m, q, xs); } else { Answered(m, q, xs, w); }
  }

  // ---------------------------------------------------------------- both caches ask for one line

  /** A read of `line` is outstanding, and nothing is queued. */
  predicate Pending(m: Machine, line: nat) {
    64 * line in m.bus.addrToTag && m.bus.txQueue == []
  }

  /** While no read completes nothing is queued, and no read is forgotten. */
  lemma PendingStays(m: Machine, p: Proc, x: Input, line: nat)
    requires Inv(m, p) && Allowed(m, p, x) && Shaped(m) && x.done == [] && m.bus.txQueue == []
    ensures Cycle(m, x).bus.txQueue == [] && (Pending(m, line) ==> Pending(Cycle(m, x), line))
  {
    hide Cycle, NewData, NewFetch, NewQueue, Inv, Taken, WriteWord, Around;
    BeatStep(m, p, x);
    InvAck(m, p);
    CycleParts(m, x);
    QueueReads(m, x, 64 * line);
  }

  /** How the instruction cache comes to ask for its line. */
  lemma FetchAsks(m: Machine, p: Proc, x: Input)
    requires Inv(m, p) && Allowed(m, p, x) && Shaped(m) && x.fetch.req && !x.fetch.hit
    ensures var n := Cycle(m, x);
            (m.ic.state == StateA ==> n.ic.state == StateB) && (m.ic.state == StateB ==> n.ic.state == StateD) &&
            (m.ic.state == StateD && !FetchOnBus(m) ==> n.ic.state == StateD && n.ic.reqcyc && n.ic.req == 64 * x.fetch.line)
    ensures (FetchOnBus(m) || DataOnBus(m)) || Cycle(m, x).arb == Nobody
  {
    hide Cycle, NewData, NewQueue, NewBus, Inv;
    InvAck(m, p);
    CycleParts(m, x);
  }

  /** A fetch that has the bus becomes outstanding. */
  lemma FetchTaken(m: Machine, p: Proc, x: Input)
    requires Inv(m, p) && Allowed(m, p, x) && Shaped(m) && ValidProc(p) && FetchOnBus(Cycle(m, x))
    ensures Cycle(m, x).ic.req in Cycle(m, x).bus.addrToTag
  {
    hide Cycle, NewData, NewFetch, NewQueue, Inv, WriteWord, Around;
    NoBurst(m, p, x);
    QueueCount(m, p, x);
    InvAck(m, p);
    CycleParts(m, x);
    FetchTagOf(m, p, x);
    AcceptFetch(NewQueue(m, x), Cycle(m, x).ic.req);
  }

  lemma OneMore(m: Machine, p: Proc, x: Input, xs: seq<Input>)
    requires Inv(m, p) && Allowed(m, p, x) && Shaped(m) && x.proc == p && Legal(Cycle(m, x), p, xs)
    ensures Legal(m, p, [x] + xs) && After(m, p, [x] + xs) == After(Cycle(m, x), p, xs)
  {
    hide Cycle, Inv, Allowed;
    assert ([x] + xs)[1..] == xs;
  }

  predicate AllSame(xs: seq<Input>, x: Input) {
    forall i :: 0 <= i < |xs| ==> xs[i] == x
  }

  lemma InRange(m: Machine, p: Proc, x: Input)
    requires Inv(m, p) && x.proc == p && ValidProc(p)
    ensures Allowed(m, p, x) && Shaped(m)
  {
    hide RamLine, WordOf, CleanOk, BurstOk, ResponsesOk;
    InvShaped(m, p);
  }

  lemma NotYetDropped(m: Machine)
    requires m.d.state == StateC || (m.d.state == StateD && !DataOnBus(m))
    ensures !Dropped(m)
  {
  }

  /** On its way to the bus with the line outstanding, and no read completing, a request is dropped. */
  lemma {:induction false} LeadsToDrop(m: Machine, p: Proc, x: Input) returns (xs: seq<Input>)
    requires Inv(m, p) && ValidProc(p) && x.proc == p && x.done == [] && ArbOk(m) && Pending(m, p.line)
    requires m.d.state == StateC || (m.d.state == StateD && !DataOnBus(m))
    ensures AllSame(xs, x) && Legal(m, p, xs) && Dropped(After(m, p, xs))
    decreases Left(m, p)
  {
    hide Cycle, Inv, NewData, NewFetch, NewBus, Left, Dropped, Allowed;
    InRange(m, p, x);
    var n := Cycle(m, x);
    Moves(m, p, x);
    DataMoves(m, p, x);
    LeftBefore(m, p, x);
    ArbStep(m, p, x);
    PendingStays(m, p, x, p.line);
    if n.d.state == StateD && DataOnBus(n) {
      NotYetDropped(m);
      DroppedExactly(m, p, x);
      xs := [];
      assert Legal(n, p, []) && After(n, p, []) == n;
    } else {
      xs := LeadsToDrop(n, p, x);
    }
    OneMore(m, p, x, xs);
    xs := [x] + xs;
  }

  lemma AtReset(ram: seq<byte>)
    ensures var m := Initial(ram);
            m.d.state == StateA && m.ic.state == StateA && m.bus.txQueue == [] && m.d.tags == seq(ROWS, _ => 15)
  {
  }

  lemma ShownInB(m: Machine, p: Proc)
    requires Inv(m, p) && m.d.state == StateB
    ensures Row(p.line) < |m.d.tags| && m.d.outTag == m.d.tags[Row(p.line)]
  {
    hide RamLine, WordOf, CleanOk, BurstOk, ResponsesOk;
  }

  lemma FromReset(ram: seq<byte>, p: Proc, x: Input) returns (n: Machine)
    requires |ram| >= 0x4000 && ValidProc(p) && InRam(ram, p.line) && p.req && !(240 <= p.line < 256)
    requires x.proc == p && x.fetch == Fetch(true, p.line, false) && x.done == [] && Inv(Initial(ram), p) && Allowed(Initial(ram), p, x)
    ensures Shaped(Initial(ram)) && n == Cycle(Initial(ram), x) && Inv(n, p)
    ensures n.d.state == StateB && !Hit(n.d, p) && n.ic.state == StateB && !n.ic.reqcyc && !n.d.reqcyc && n.bus.txQueue == []
  {
    hide Cycle, Inv, NewData, NewFetch, NewBus, Allowed, Initial;
    var m := Initial(ram);
    ResetShaped(ram);
    AtReset(ram);
    n := Cycle(m, x);
    Moves(m, p, x);
    DataMoves(m, p, x);
    FetchMoves(m, p, x);
    FetchAsks(m, p, x);
    PendingStays(m, p, x, p.line);
    StepA(m, p, x);
    ShownInB(n, p);
  }

  /** The first three clocks after a reset: both caches miss, and the fetch gets the bus. */
  lemma FetchFirst(ram: seq<byte>, p: Proc, x: Input)
    requires |ram| >= 0x4000 && ValidProc(p) && InRam(ram, p.line) && p.req && !(240 <= p.line < 256)
    requires x.proc == p && x.fetch == Fetch(true, p.line, false) && x.done == []
    ensures var m := Initial(ram);
            Inv(m, p) && Allowed(m, p, x) && Shaped(m) &&
            var m1 := Cycle(m, x);
            Inv(m1, p) && Allowed(m1, p, x) && Shaped(m1) &&
            var m2 := Cycle(m1, x);
            Inv(m2, p) && Allowed(m2, p, x) && Shaped(m2) &&
            var m3 := Cycle(m2, x);
            Inv(m3, p) && ArbOk(m3) && Pending(m3, p.line) && (m3.d.state == StateC || (m3.d.state == StateD && !DataOnBus(m3)))
  {
    hide Cycle, Inv, NewData, NewFetch, NewBus, Allowed, NoLanes;
    var m := Initial(ram);
    InitialInv(ram, p);
    InRange(m, p, x);
    var m1 := FromReset(ram, p, x);
    InRange(m1, p, x);
    var m2 := Cycle(m1, x);
    FetchAsks(m1, p, x);
    FetchMoves(m1, p, x);
    PendingStays(m1, p, x, p.line);
    Moves(m1, p, x);
    DataMoves(m1, p, x);
    InRange(m2, p, x);
    FetchAsks(m2, p, x);
    PendingStays(m2, p, x, p.line);
    Moves(m2, p, x);
    DataMoves(m2, p, x);
    ArbStep(m2, p, x);
    FetchTaken(m2, p, x);
  }

  /** From reset: whenever both caches first ask for the same line, and memory takes its time, the
      data cache waits for ever. */
  lemma BothAsk(ram: seq<byte>, p: Proc, x: Input) returns (xs: seq<Input>)
    requires |ram| >= 0x4000 && ValidProc(p) && InRam(ram, p.line) && p.req && !(240 <= p.line < 256)
    requires x.proc == p && x.fetch == Fetch(true, p.line, false) && x.done == []
    ensures AllSame(xs, x) && Legal(Initial(ram), p, xs) && Dropped(After(Initial(ram), p, xs))
  {
    hide Cycle, Inv, Initial, Dropped, Pending, Allowed;
    FetchFirst(ram, p, x);
    var m := Initial(ram);
    var m1 := Cycle(m, x);
    var m2 := Cycle(m1, x);
    xs := LeadsToDrop(Cycle(m2, x), p, x);
    OneMore(m2, p, x, xs);
    OneMore(m1, p, x, [x] + xs);
    OneMore(m, p, x, [x] + ([x] + xs));
    xs := [x] + ([x] + ([x] + xs));
  }
}
