/** Nothing happens that was not asked for: no access is acknowledged, no line read and no line
    written back without a request of the memory stage, and no line is fetched without one of the
    fetch stage. */
module CacheRequests {
  import opened Bits
  import opened Lanes
  import opened DataCache
  import opened Arbiters
  import opened CacheInvariant
  import opened CacheSteps
  import opened CacheMemory

  /** While the data cache is at work there is a request. */
  predicate Requested(m: Machine, p: Proc) {
    m.d.state != StateA ==> p.req
  }

  lemma AckNow(m: Machine, p: Proc)
    requires Inv(m, p)
    ensures AckOk(m)
  {
  }

  lemma Wakes(m: Machine, p: Proc, x: Input)
    requires Inv(m, p) && Allowed(m, p, x) && Shaped(m) && m.d.state == StateA
    ensures Cycle(m, x).d.state == (if x.proc.req then StateB else StateA) && !Cycle(m, x).d.ack
  {
    hide Inv, Masked, RamLine;
    InvShaped(m, p);
    assert AckOk(m) by { AckNow(m, p); }
    CycleParts(m, x);
  }

  /** One clock: an idle cache goes to work exactly on a request, and an access is acknowledged
      only if it was requested. */
  lemma RequestStep(m: Machine, p: Proc, x: Input)
    requires Inv(m, p) && Allowed(m, p, x) && ValidProc(p) && Requested(m, p)
    ensures Shaped(m) && Requested(Cycle(m, x), x.proc)
    ensures m.d.state == StateA ==> (Cycle(m, x).d.state == StateA <==> !x.proc.req)
    ensures Cycle(m, x).d.ack ==> p.req && x.proc == p
  {
    hide Cycle, Inv, View, Stored, LoadValue;
    InvShaped(m, p);
    if m.d.state == StateA {
      Wakes(m, p, x);
    } else {
      ClockAgrees(m, p, x, 0);
    }
  }

  /** The look-up: an access is acknowledged if the row holds its line; otherwise the line in the row
      is written back if it is dirty, and the other is read. */
  lemma LookUp(m: Machine, p: Proc, x: Input)
    requires Inv(m, p) && Allowed(m, p, x) && Shaped(m) && m.d.state == StateB
    ensures var n, hit := Cycle(m, x), LineAt(m.d, Row(p.line)) == p.line;
            n.d.ack == hit && !n.d.reqcyc &&
            n.d.state == if hit then StateA else if m.d.dirty[Row(p.line)] then StateC else StateD
  {
    hide Masked, RamLine, LoadValue, StoreData, CleanOk;
    AckNow(m, p);
    CycleParts(m, x);
  }

  lemma SameRows(m: Machine, p: Proc, x: Input)
    requires Inv(m, p) && Allowed(m, p, x) && Shaped(m) && m.d.state == StateA
    ensures Sized(Cycle(m, x).d) && Cycle(m, x).d.tags == m.d.tags && !Cycle(m, x).d.reqcyc
  {
    hide Masked, RamLine, CleanOk;
    AckNow(m, p);
    CycleParts(m, x);
  }

  /** A hit takes two clocks and leaves the bus alone. */
  lemma HitInTwo(m: Machine, p: Proc, x: Input, y: Input)
    requires Inv(m, p) && Allowed(m, p, x) && Shaped(m) && m.d.state == StateA
    requires x.proc.req && y.proc == x.proc && LineAt(m.d, Row(x.proc.line)) == x.proc.line
    ensures var n := Cycle(m, x);
            !n.d.ack && !n.d.reqcyc && Shaped(n) && Cycle(n, y).d.ack && !Cycle(n, y).d.reqcyc && Cycle(n, y).d.state == StateA
  {
    hide Cycle, Inv, Masked, RamLine;
    Wakes(m, p, x);
    SameRows(m, p, x);
    StepA(m, p, x);
    InvShaped(Cycle(m, x), x.proc);
    LookUp(Cycle(m, x), x.proc, y);
  }

  /** Every access acknowledged in a run was requested. */
  lemma {:induction false} AccessesRequested(m: Machine, p: Proc, xs: seq<Input>, i: nat)
    requires Inv(m, p) && ValidProc(p) && Requested(m, p) && Legal(m, p, xs) && i < |Accesses(m, p, xs)|
    ensures Accesses(m, p, xs)[i].p.req
    decreases |xs|
  {
    hide Cycle, Inv, Agrees, Allowed;
    LegalStep(m, p, xs);
    RequestStep(m, p, xs[0]);
    ClockAgrees(m, p, xs[0], 0);
    KeepsOnly(m, p, xs[0], 0);
    var k := if Cycle(m, xs[0]).d.ack then 1 else 0;
    if i >= k { AccessesRequested(Cycle(m, xs[0]), xs[0].proc, xs[1..], i - k); }
  }

  /** From reset. */
  lemma RequestedFromReset(ram: seq<byte>, p: Proc, xs: seq<Input>, i: nat)
    requires |ram| >= 0x4000 && ValidProc(p) && InRam(ram, p.line) && Legal(Initial(ram), p, xs)
    requires i < |Accesses(Initial(ram), p, xs)|
    ensures Accesses(Initial(ram), p, xs)[i].p.req
  {
    hide Inv, Legal, Accesses;
    InitialInv(ram, p);
    AccessesRequested(Initial(ram), p, xs, i);
  }

  lemma {:induction false} RequestKeeps(m: Machine, p: Proc, xs: seq<Input>)
    requires Inv(m, p) && ValidProc(p) && Requested(m, p) && Legal(m, p, xs)
    ensures Requested(After(m, p, xs), Held(p, xs))
    decreases |xs|
  {
    hide Cycle, Inv, Agrees, Allowed;
    if xs != [] {
      LegalStep(m, p, xs);
      RequestStep(m, p, xs[0]);
      ClockAgrees(m, p, xs[0], 0);
      KeepsOnly(m, p, xs[0], 0);
      RequestKeeps(Cycle(m, xs[0]), xs[0].proc, xs[1..]);
      assert Held(xs[0].proc, xs[1..]) == Held(p, xs);
    }
  }

  lemma WhatFor(m: Machine, p: Proc)
    requires Inv(m, p) && DataOnBus(m)
    ensures Sized(m.d)
    ensures if m.d.reqtag == WRITE_TAG then m.d.state == StateC && m.d.dirty[Row(p.line)] && LineAt(m.d, Row(p.line)) != p.line
            else m.d.state == StateD && m.d.reqtag == READ_TAG && m.d.req == 64 * p.line
  {
    hide RamLine, CleanOk, WordOf, BurstOk, ResponsesOk;
  }

  /** In every run the data cache drives the bus only for a request that is held, and then either
      to write back a dirty row that another line must leave, or to read the line requested. */
  lemma BusForRequest(m: Machine, p: Proc, xs: seq<Input>)
    requires Inv(m, p) && ValidProc(p) && Requested(m, p) && Legal(m, p, xs) && DataOnBus(After(m, p, xs))
    ensures var n, q := After(m, p, xs), Held(p, xs);
            Sized(n.d) && q.req &&
            if n.d.reqtag == WRITE_TAG then n.d.state == StateC && n.d.dirty[Row(q.line)] && LineAt(n.d, Row(q.line)) != q.line
            else n.d.state == StateD && n.d.reqtag == READ_TAG && n.d.req == 64 * q.line
  {
    hide Inv, After, Legal;
    RunKeeps(m, p, xs);
    RequestKeeps(m, p, xs);
    WhatFor(After(m, p, xs), Held(p, xs));
  }

  lemma StaysIdle(m: Machine, p: Proc, x: Input)
    requires Inv(m, p) && Allowed(m, p, x) && Shaped(m) && m.ic.state == StateA && !x.fetch.req
    ensures Cycle(m, x).ic.state == StateA && !Cycle(m, x).ic.reqcyc
  {
    hide Inv, NewData, NewQueue, NewBus, Cycle;
    AckNow(m, p);
    CycleParts(m, x);
  }

  /** Without a request of the fetch stage an idle instruction cache stays off the bus. */
  lemma {:induction false} NothingFetched(m: Machine, p: Proc, xs: seq<Input>)
    requires Inv(m, p) && ValidProc(p) && Legal(m, p, xs) && m.ic.state == StateA && !m.ic.reqcyc
    requires forall i :: 0 <= i < |xs| ==> !xs[i].fetch.req
    ensures After(m, p, xs).ic.state == StateA && !After(m, p, xs).ic.reqcyc
    decreases |xs|
  {
    hide Cycle, Inv, Agrees, Allowed;
    if xs != [] {
      LegalStep(m, p, xs);
      StaysIdle(m, p, xs[0]);
      ClockAgrees(m, p, xs[0], 0);
      KeepsOnly(m, p, xs[0], 0);
      NothingFetched(Cycle(m, xs[0]), xs[0].proc, xs[1..]);
    }
  }
}
