/** The instruction cache over whole runs: the beats it takes are the words of the line it asked
    for, in order, as RAM stood when the read completed. */
module CacheFetch {
  import opened Bits
  import opened DataCache
  import opened SystemBus
  import opened Arbiters
  import opened CacheInvariant
  import opened CacheResponses
  import opened CacheSteps
  import opened CacheMemory
  import opened CacheBus

  /** The line the instruction cache asked for last, and its bytes once the read has completed. */
  datatype Fetching = Idle | Asked(line: nat) | Answered(line: nat, bytes: seq<byte>)

  predicate Completes(b: Bus, done: seq<nat>, line: nat) {
    64 * line in b.addrToTag && b.addrToTag[64 * line] == FETCH_TAG && 64 * line in done
  }

  /** What a clock does to it: a read of the line may complete, and then a new request may get the bus. */
  ghost function Follow(w: Fetching, m: Machine, x: Input): Fetching
    requires Shaped(m) && ValidProc(x.proc)
  {
    hide RamLine;
    var v := if w.Asked? && Completes(m.bus, x.done, w.line) then Answered(w.line, RamLine(m.bus.ram, w.line)) else w;
    if FetchOnBus(Cycle(m, x)) then Asked(Cycle(m, x).ic.req / 64) else v
  }

  /** No read for the instruction cache is outstanding, but perhaps of one line. */
  predicate Outstanding(b: Bus, some: bool, line: nat) {
    forall a :: a in b.addrToTag && b.addrToTag[a] == FETCH_TAG ==> some && a == 64 * line
  }

  /** The beats for the instruction cache are the words of `bytes` from word `k` on. */
  ghost predicate WordsFrom(q: seq<Beat>, bytes: seq<byte>, k: nat) {
    |bytes| == 64 && k <= 8 && |TagBeats(q, FETCH_TAG)| == 8 - k &&
    forall j :: k <= j < 8 ==> TagBeats(q, FETCH_TAG)[j - k] == WordOf(bytes, j)
  }

  /** The part about the bus: what is outstanding, and what is queued. */
  ghost predicate BusFetch(b: Bus, w: Fetching, k: nat) {
    match w
    case Idle => Outstanding(b, false, 0) && TagBeats(b.txQueue, FETCH_TAG) == []
    case Asked(line) => Outstanding(b, true, line) && k == 0 && TagBeats(b.txQueue, FETCH_TAG) == []
    case Answered(_, bytes) => Outstanding(b, false, 0) && WordsFrom(b.txQueue, bytes, k)
  }

  lemma {:induction false} StillThere(b: Bus, done: seq<nat>, a: nat)
    ensures a in CompleteAll(b, done).addrToTag <==> a in b.addrToTag && a !in done
    ensures a in CompleteAll(b, done).addrToTag ==> CompleteAll(b, done).addrToTag[a] == b.addrToTag[a]
  {
    hide Beats;
    if done != [] {
      var t, l := done[..|done| - 1], done[|done| - 1];
      StillThere(b, t, a);
      StillThere(b, t, l);
      assert a in done <==> a in t || a == l;
    }
  }

  lemma OneFetch(c: Bus, a: nat, w: Fetching, k: nat)
    requires BusFetch(c, w, k) && a in c.addrToTag
    ensures var v := if w.Asked? && a == 64 * w.line && c.addrToTag[a] == FETCH_TAG then Answered(w.line, RamLine(c.ram, w.line)) else w;
            BusFetch(Complete(c, a), v, k)
  {
    hide RamLine, WordOf, TagBeats;
    var tag := c.addrToTag[a];
    var q := Beats(c.ram, a, tag, 8);
    BeatsConcat(c.txQueue, q, FETCH_TAG);
    if tag == FETCH_TAG {
      LineBeats(c.ram, w.line, FETCH_TAG);
      assert [] + TagBeats(q, FETCH_TAG) == TagBeats(q, FETCH_TAG);
    } else {
      NoBeats(q, FETCH_TAG);
      assert TagBeats(c.txQueue, FETCH_TAG) + [] == TagBeats(c.txQueue, FETCH_TAG);
    }
  }

  lemma {:induction false} CompleteFetches(b: Bus, done: seq<nat>, w: Fetching, k: nat)
    requires BusFetch(b, w, k)
    ensures var v := if w.Asked? && Completes(b, done, w.line) then Answered(w.line, RamLine(b.ram, w.line)) else w;
            BusFetch(CompleteAll(b, done), v, k) && CompleteAll(b, done).ram == b.ram && b.txQueue <= CompleteAll(b, done).txQueue
  {
    hide RamLine, WordOf, Beats;
    if done != [] {
      var t, a := done[..|done| - 1], done[|done| - 1];
      var c := CompleteAll(b, t);
      CompleteFetches(b, t, w, k);
      assert forall l :: l in done <==> l in t || l == a;
      if a in c.addrToTag {
        OneFetch(c, a, if w.Asked? && Completes(b, t, w.line) then Answered(w.line, RamLine(b.ram, w.line)) else w, k);
      }
      StillThere(b, t, a);
    }
  }

  // ---------------------------------------------------------------- one clock

  ghost predicate Quiet(b: Bus) {
    BusFetch(b, Idle, 0)
  }

  /** What holds of the request of the instruction cache, state by state. */
  ghost predicate FetchInv(m: Machine, w: Fetching) {
    (m.ic.reqcyc ==> m.ic.state == StateD && m.ic.req % 64 == 0) &&
    match m.ic.state
    case StateE => !w.Idle? && m.ic.counter <= 8 && BusFetch(m.bus, w, m.ic.counter)
    case StateD => if FetchOnBus(m) then w == Asked(m.ic.req / 64) && BusFetch(m.bus, w, 0) else Quiet(m.bus)
    case _ => Quiet(m.bus)
  }

  /** Taking the front beat: its owner's words go on by one, the other's stay. */
  lemma PopFetch(b: Bus, w: Fetching, k: nat)
    requires BusFetch(b, w, k) && b.txQueue != []
    ensures var c := b.(txQueue := b.txQueue[1..]);
            if b.txQueue[0].tag == FETCH_TAG then
              w.Answered? && k < 8 && |w.bytes| == 64 && b.txQueue[0].data == WordOf(w.bytes, k) && BusFetch(c, w, k + 1)
            else BusFetch(c, w, k)
  {
    hide WordOf;
    var t, u := TagBeats(b.txQueue, FETCH_TAG), TagBeats(b.txQueue[1..], FETCH_TAG);
    if b.txQueue[0].tag == FETCH_TAG {
      assert t == [b.txQueue[0].data] + u;
      assert t[0] == t[k - k];
      forall j | k + 1 <= j < 8 ensures u[j - (k + 1)] == WordOf(w.bytes, j) {
        assert t[j - k] == u[j - (k + 1)];
      }
    } else {
      assert t == u;
    }
  }

  lemma PresentFetch(b: Bus, w: Fetching, k: nat)
    requires BusFetch(b, w, k)
    ensures BusFetch(Present(b), w, k)
  {
    hide TagBeats, WordOf;
  }

  lemma AnsweredBefore(b: Bus, w: Fetching, k: nat)
    requires BusFetch(b, w, k) && b.txQueue != [] && b.txQueue[0].tag == FETCH_TAG
    ensures w.Answered?
  {
  }

  /** The response side of a clock. */
  lemma QueueFetch(m: Machine, p: Proc, x: Input, w: Fetching, k: nat)
    requires Inv(m, p) && Allowed(m, p, x) && BusFetch(m.bus, w, k) && Shaped(m)
    ensures var v := if w.Asked? && Completes(m.bus, x.done, w.line) then Answered(w.line, RamLine(m.bus.ram, w.line)) else w;
            if NewFetch(m, x).respack then
              w.Answered? && k < 8 && |w.bytes| == 64 && m.bus.txQueue != [] &&
              m.bus.txQueue[0] == Beat(WordOf(w.bytes, k), FETCH_TAG) && BusFetch(NewQueue(m, x), v, k + 1)
            else BusFetch(NewQueue(m, x), v, k)
  {
    hide TagBeats, WordOf, RamLine, NewFetch, NewData, Present, CompleteAll, BusFetch, CacheOk, BurstOk, RespOk;
    RespackOwner(m, p, x);
    CompleteFetches(m.bus, x.done, w, k);
    var v := if w.Asked? && Completes(m.bus, x.done, w.line) then Answered(w.line, RamLine(m.bus.ram, w.line)) else w;
    var c := CompleteAll(m.bus, x.done);
    if m.bus.txQueue != [] && (NewFetch(m, x).respack || NewData(m, x).respack) {
      PopFetch(c, v, k);
      PresentFetch(c.(txQueue := c.txQueue[1..]), v, if NewFetch(m, x).respack then k + 1 else k);
      if NewFetch(m, x).respack { AnsweredBefore(m.bus, w, k); }
    } else {
      PresentFetch(c, v, k);
    }
  }

  /** The request side of a clock, when the instruction cache has no part in it. */
  lemma OtherRequest(n: Machine, w: Fetching, k: nat)
    requires BusFetch(n.bus, w, k) && !FetchOnBus(n) && (DataOnBus(n) ==> n.d.reqtag != FETCH_TAG)
    ensures BusFetch(NewBus(n), w, k)
  {
    hide TagBeats, WordOf, WriteWord, Around;
  }

  /** A request of the instruction cache. */
  lemma OwnRequest(n: Machine, line: nat)
    requires Quiet(n.bus) && FetchOnBus(n) && n.bus.rxCount == 0 && n.ic.reqtag == FETCH_TAG && n.ic.req == 64 * line
    ensures BusFetch(NewBus(n), Asked(line), 0)
  {
    hide TagBeats;
    AcceptFetch(n.bus, n.ic.req);
  }

  lemma OtherTag(m: Machine, p: Proc)
    requires Inv(m, p) && m.d.reqcyc
    ensures m.d.reqtag != FETCH_TAG
  {
    hide RamLine, WordOf, CleanOk, BurstOk, ResponsesOk;
  }

  lemma BurstNow(m: Machine, p: Proc)
    requires Inv(m, p) && m.bus.rxCount != 0
    ensures m.d.state == StateC && DataOnBus(m) && m.d.counter <= 8
  {
    hide RamLine, WordOf, CleanOk, ResponsesOk;
  }

  lemma NoBurst(m: Machine, p: Proc, x: Input)
    requires Inv(m, p) && Allowed(m, p, x) && ValidProc(p) && Shaped(m) && FetchOnBus(Cycle(m, x))
    ensures m.bus.rxCount == 0
  {
    hide Cycle, Inv, RamLine, WordOf, CacheOk, ResponsesOk;
    if m.bus.rxCount != 0 {
      BurstNow(m, p);
      BurstGoesOn(m, p, x);
    }
  }

  /** How the state machine moves, given what is on the pins. */
  lemma FetchMoves(m: Machine, p: Proc, x: Input)
    requires Inv(m, p) && Allowed(m, p, x)
    ensures var c, n := m.ic, NewFetch(m, x);
            FetchOk(n) && (n.reqcyc ==> n.state == StateD && n.req == 64 * x.fetch.line) &&
            (n.respack <==> c.state == StateE && m.bus.txQueue != [] && m.bus.txQueue[0].tag == FETCH_TAG) &&
            match c.state
            case StateE =>
              if n.respack then n.counter == c.counter + 1 && (c.counter < 8 ==> n.state == StateE)
              else n.state == (if c.counter == 8 then StateB else StateE) && n.counter == c.counter
            case StateD =>
              if FetchOnBus(m) then n.state == StateE && n.counter == 0 && !n.reqcyc else n.state == StateD && n.reqcyc
            case _ => n.state != StateE && !n.reqcyc
  {
    hide RamLine, WordOf, CacheOk, BurstOk, RespOk;
  }

  lemma QueueCount(m: Machine, p: Proc, x: Input)
    requires Inv(m, p) && Allowed(m, p, x) && Shaped(m)
    ensures NewQueue(m, x).rxCount == m.bus.rxCount
  {
    hide NewQueue, Inv, RespOk, PinsOk, DataBeats, WordOf, RamLine;
    QueueStep(m, p, x);
  }

  lemma FetchTagOf(m: Machine, p: Proc, x: Input)
    requires Inv(m, p) && Allowed(m, p, x) && Shaped(m) && FetchOnBus(Middle(m, x))
    ensures NewFetch(m, x).reqtag == FETCH_TAG
  {
    hide RamLine, WordOf, CacheOk, BurstOk, RespOk;
  }

  lemma AllTaken(b: Bus, w: Fetching)
    requires BusFetch(b, w, 8)
    ensures Quiet(b)
  {
    hide WordOf;
  }

  /** One clock: the request, the read and the beats of the instruction cache stay in step, and a
      beat it takes is the word its counter says of the line it asked for. */
  lemma FetchClock(m: Machine, p: Proc, x: Input, w: Fetching)
    requires Inv(m, p) && Allowed(m, p, x) && ValidProc(p) && FetchInv(m, w)
    ensures Shaped(m) && FetchInv(Cycle(m, x), Follow(w, m, x))
    ensures Cycle(m, x).ic.respack ==>
              w.Answered? && m.ic.counter < 8 && |w.bytes| == 64 &&
              Taken(m, x) == [Beat(WordOf(w.bytes, m.ic.counter), FETCH_TAG)]
  {
    hide Cycle, Inv, NewFetch, NewData, NewBus, NewQueue, TagBeats, WordOf, RamLine, BusFetch, FetchOk;
    InvShaped(m, p);
    assert AckOk(m) by { InvAck(m, p); }
    CycleParts(m, x);
    FetchMoves(m, p, x);
    ClockAgrees(m, p, x, 0);
    KeepsOnly(m, p, x, 0);
    var n := Middle(m, x);
    var k := if m.ic.state == StateE then m.ic.counter else 0;
    var v := if m.ic.state == StateE || (m.ic.state == StateD && FetchOnBus(m)) then w else Idle;
    QueueFetch(m, p, x, v, k);
    if FetchOnBus(n) {
      NoBurst(m, p, x);
      FetchTagOf(m, p, x);
      QueueCount(m, p, x);
      OwnRequest(n, x.fetch.line);
    } else {
      if DataOnBus(n) { OtherTag(Cycle(m, x), x.proc); }
      var u := if v.Asked? && Completes(m.bus, x.done, v.line) then Answered(v.line, RamLine(m.bus.ram, v.line)) else v;
      OtherRequest(n, u, if n.ic.respack then k + 1 else k);
      if k == 8 { AllTaken(NewBus(n), u); }
    }
  }

  // ---------------------------------------------------------------- runs

  /** The line asked for, and its bytes, after a run. */
  ghost function FollowAll(w: Fetching, m: Machine, p: Proc, xs: seq<Input>): Fetching
    requires Legal(m, p, xs)
    decreases |xs|
  {
    if xs == [] then w else FollowAll(Follow(w, m, xs[0]), Cycle(m, xs[0]), xs[0].proc, xs[1..])
  }

  lemma {:induction false} FetchKeeps(m: Machine, p: Proc, xs: seq<Input>, w: Fetching)
    requires Inv(m, p) && ValidProc(p) && Legal(m, p, xs) && FetchInv(m, w)
    ensures FetchInv(After(m, p, xs), FollowAll(w, m, p, xs))
    decreases |xs|
  {
    hide Cycle, Inv, Agrees, FetchInv, Follow, Allowed;
    if xs != [] {
      LegalStep(m, p, xs);
      FetchClock(m, p, xs[0], w);
      ClockAgrees(m, p, xs[0], 0);
      KeepsOnly(m, p, xs[0], 0);
      FetchKeeps(Cycle(m, xs[0]), xs[0].proc, xs[1..], Follow(w, m, xs[0]));
    }
  }

  lemma FetchAtReset(ram: seq<byte>)
    ensures FetchInv(Initial(ram), Idle)
  {
  }

  /** In every run from reset the beat that the instruction cache takes as the k-th of a response
      is word k of the line it asked for, as RAM stood when the read completed. */
  lemma FetchedWords(ram: seq<byte>, p: Proc, xs: seq<Input>, x: Input)
    requires Inv(Initial(ram), p) && ValidProc(p) && Legal(Initial(ram), p, xs)
    requires Allowed(After(Initial(ram), p, xs), Held(p, xs), x)
    ensures Shaped(After(Initial(ram), p, xs))
    ensures var m, w := After(Initial(ram), p, xs), FollowAll(Idle, Initial(ram), p, xs);
            Cycle(m, x).ic.respack ==>
              w.Answered? && m.ic.counter < 8 && |w.bytes| == 64 &&
              Taken(m, x) == [Beat(WordOf(w.bytes, m.ic.counter), FETCH_TAG)]
  {
    hide Cycle, Inv, Initial, FetchInv, Allowed, Taken, WordOf;
    FetchAtReset(ram);
    FetchKeeps(Initial(ram), p, xs, Idle);
    RunKeeps(Initial(ram), p, xs);
    FetchClock(After(Initial(ram), p, xs), Held(p, xs), x, FollowAll(Idle, Initial(ram), p, xs));
  }
}
