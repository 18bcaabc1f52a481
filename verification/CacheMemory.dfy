/** The cache, the bus and RAM together are a flat memory: what a program sees changes
    only by its own acknowledged stores, and every acknowledged load returns it. */
module CacheMemory {
  import opened Bits
  import opened Lanes
  import opened DataCache
  import opened SystemBus
  import opened Arbiters
  import opened CacheInvariant
  import opened CacheSteps

  /** Line `l` as the program sees it: the cached one if the tag names it and its data have
      come, and otherwise RAM's. */
  ghost function View(m: Machine, p: Proc, l: nat): (v: seq<byte>)
    requires Shaped(m)
    ensures |v| == 64
  {
    hide RamLine, RamWord;
    var r := Row(l);
    if m.d.tags[r] == l / ROWS && !Refilling(m.d, p, r) then m.d.lines[r] else RamLine(m.bus.ram, l)
  }

  // ---------------------------------------------------------------- one clock

  /** The request is acknowledged at this clock. */
  predicate Acknowledged(m: Machine, p: Proc) {
    m.d.state == StateB && Hit(m.d, p)
  }

  /** What a clock does to line `l` of the view, and what it acknowledges. */
  ghost predicate Agrees(m: Machine, p: Proc, n: Machine, q: Proc, l: nat) {
    Shaped(m) && ValidProc(p) && Inv(n, q) && Shaped(n) && (n.d.ack <==> Acknowledged(m, p)) &&
    (n.d.ack && !p.write ==> n.d.dataOut == LoadValue(WordOf(View(m, p, p.line), p.word), p.loadType, p.offset)) &&
    View(n, q, l) == if n.d.ack && p.write && l == p.line then Stored(View(m, p, l), p) else View(m, p, l)
  }

  lemma LineSplits(l: nat, k: nat)
    ensures l == k <==> Row(l) == Row(k) && l / ROWS == k / ROWS
  {
  }

  lemma TagNames(l: nat, t: nat, r: nat)
    requires r < ROWS && Row(l) == r
    ensures t * ROWS + r == l <==> t == l / ROWS
  {
  }

  /** Same rows, same RAM, nothing being refilled: same view. */
  lemma SameView(m: Machine, p: Proc, n: Machine, q: Proc, l: nat)
    requires Shaped(m) && Shaped(n) && n.d.tags == m.d.tags && n.d.lines == m.d.lines && n.bus.ram == m.bus.ram
    requires !Refilling(m.d, p, Row(l)) && !Refilling(n.d, q, Row(l))
    ensures View(n, q, l) == View(m, p, l)
  {
    hide RamLine;
  }

  lemma ViewHit(m: Machine, p: Proc)
    requires Inv(m, p) && Acknowledged(m, p)
    ensures Shaped(m) && View(m, p, p.line) == m.d.lines[Row(p.line)] && m.d.tags[Row(p.line)] == p.line / ROWS
  {
    hide RamLine, CleanOk, Inv, WordOf;
    InvShaped(m, p);
    InvCache(m, p);
  }

  lemma AgreesA(m: Machine, p: Proc, x: Input, l: nat)
    requires Inv(m, p) && Allowed(m, p, x) && m.d.state == StateA
    ensures Shaped(m) && Inv(Cycle(m, x), x.proc) && Shaped(Cycle(m, x)) && !Cycle(m, x).d.ack
    ensures View(Cycle(m, x), x.proc, l) == View(m, p, l)
  {
    hide Cycle, Inv, RamLine, View;
    InvShaped(m, p);
    StepA(m, p, x);
    InvShaped(Cycle(m, x), x.proc);
    SameView(m, p, Cycle(m, x), x.proc, l);
  }

  lemma AgreesMiss(m: Machine, p: Proc, x: Input, l: nat)
    requires Inv(m, p) && Allowed(m, p, x) && m.d.state == StateB && !Hit(m.d, p)
    ensures Shaped(m) && Inv(Cycle(m, x), x.proc) && Shaped(Cycle(m, x)) && !Cycle(m, x).d.ack
    ensures View(Cycle(m, x), x.proc, l) == View(m, p, l)
  {
    hide Cycle, Inv, RamLine, View;
    InvShaped(m, p);
    StepMiss(m, p, x);
    InvShaped(Cycle(m, x), x.proc);
    SameView(m, p, Cycle(m, x), x.proc, l);
  }

  lemma AgreesLoad(m: Machine, p: Proc, x: Input, l: nat)
    requires Inv(m, p) && Allowed(m, p, x) && Acknowledged(m, p) && !p.write
    ensures Agrees(m, p, Cycle(m, x), x.proc, l)
  {
    hide Cycle, Inv, RamLine, View, LoadValue;
    InvShaped(m, p);
    StepLoad(m, p, x);
    InvShaped(Cycle(m, x), x.proc);
    ViewHit(m, p);
    SameView(m, p, Cycle(m, x), x.proc, l);
  }

  lemma AgreesStore(m: Machine, p: Proc, x: Input, l: nat)
    requires Inv(m, p) && Allowed(m, p, x) && Acknowledged(m, p) && p.write
    ensures Agrees(m, p, Cycle(m, x), x.proc, l)
  {
    hide Cycle, Inv, RamLine, LoadValue, Stored;
    InvShaped(m, p);
    StepStore(m, p, x);
    InvShaped(Cycle(m, x), x.proc);
    ViewHit(m, p);
    LineSplits(l, p.line);
  }

  /** A beat of the write-back changes RAM only where the cached line is what is seen. */
  lemma AgreesBeat(m: Machine, p: Proc, x: Input, l: nat)
    requires Inv(m, p) && Allowed(m, p, x) && m.d.state == StateC && DataOnBus(m) && m.d.counter <= 8
    ensures Shaped(m) && Inv(Cycle(m, x), x.proc) && Shaped(Cycle(m, x)) && !Cycle(m, x).d.ack
    ensures View(Cycle(m, x), x.proc, l) == View(m, p, l)
  {
    hide Cycle, Inv, RamLine, WordOf, WriteWord;
    InvShaped(m, p);
    StepBeat(m, p, x);
    InvShaped(Cycle(m, x), x.proc);
    InvRange(m, p);
    var r := Row(p.line);
    var n := LineAt(m.d, r);
    if l == n {
      TagNames(l, m.d.tags[r], r);
    } else {
      BeatElsewhere(m.bus.ram, n, m.d.counter - 1, WordOf(m.d.lines[r], m.d.counter - 1), l);
    }
  }

  lemma AgreesC(m: Machine, p: Proc, x: Input, l: nat)
    requires Inv(m, p) && Allowed(m, p, x) && m.d.state == StateC
    ensures Shaped(m) && Inv(Cycle(m, x), x.proc) && Shaped(Cycle(m, x)) && !Cycle(m, x).d.ack
    ensures View(Cycle(m, x), x.proc, l) == View(m, p, l)
  {
    hide Cycle, Inv, RamLine, View, DataOnBus;
    InvShaped(m, p);
    if DataOnBus(m) && m.d.counter <= 8 {
      AgreesBeat(m, p, x, l);
    } else {
      if DataOnBus(m) { StepBurstEnd(m, p, x); } else { StepWait(m, p, x); }
      InvShaped(Cycle(m, x), x.proc);
      SameView(m, p, Cycle(m, x), x.proc, l);
    }
  }

  /** Before the tag is overwritten the row it gives up is clean, so nothing is lost. */
  lemma GivenUp(m: Machine, p: Proc, l: nat)
    requires Inv(m, p) && m.d.state == StateD && Row(l) == Row(p.line)
    ensures Shaped(m) && View(m, p, l) == RamLine(m.bus.ram, l)
  {
    hide RamLine, CleanOk, Inv, WordOf;
    InvShaped(m, p);
    InvCache(m, p);
    var r := Row(p.line);
    if !m.d.reqcyc && m.d.tags[r] == l / ROWS { TagNames(l, m.d.tags[r], r); }
  }

  lemma Filling(m: Machine, p: Proc, l: nat)
    requires Shaped(m) && Refilling(m.d, p, Row(l))
    ensures View(m, p, l) == RamLine(m.bus.ram, l)
  {
    hide RamLine;
  }

  lemma OtherRow(m: Machine, p: Proc, n: Machine, l: nat)
    requires Shaped(m) && Shaped(n) && n.bus.ram == m.bus.ram && Row(l) != Row(p.line)
    requires n.d.tags[Row(l)] == m.d.tags[Row(l)] && n.d.lines[Row(l)] == m.d.lines[Row(l)]
    ensures View(n, p, l) == View(m, p, l)
  {
    hide RamLine;
  }

  lemma AgreesD(m: Machine, p: Proc, x: Input, l: nat)
    requires Inv(m, p) && Allowed(m, p, x) && m.d.state == StateD
    ensures Shaped(m) && Inv(Cycle(m, x), x.proc) && Shaped(Cycle(m, x)) && !Cycle(m, x).d.ack
    ensures View(Cycle(m, x), x.proc, l) == View(m, p, l)
  {
    hide Cycle, Inv, RamLine, View;
    InvShaped(m, p);
    if DataOnBus(m) { StepGranted(m, p, x); } else { StepRequest(m, p, x); }
    InvShaped(Cycle(m, x), x.proc);
    if Row(l) == Row(p.line) {
      GivenUp(m, p, l);
      Filling(Cycle(m, x), p, l);
    } else {
      OtherRow(m, p, Cycle(m, x), l);
    }
  }

  /** A line that has come is RAM's. */
  lemma Arrived(m: Machine, p: Proc)
    requires Inv(m, p) && m.d.state == StateE && m.d.counter == 8
    ensures Shaped(m) && m.d.lines[Row(p.line)] == RamLine(m.bus.ram, p.line) && m.d.tags[Row(p.line)] == p.line / ROWS
  {
    hide RamLine, CleanOk, Inv, WordOf;
    InvShaped(m, p);
    InvCache(m, p);
    LineWords(m.d.lines[Row(p.line)], RamLine(m.bus.ram, p.line));
  }

  lemma Settled(m: Machine, p: Proc, n: Machine, l: nat)
    requires Shaped(m) && Shaped(n) && n.d.state == StateB && Row(l) == Row(p.line)
    requires m.d.tags == n.d.tags && m.d.lines == n.d.lines && m.bus.ram == n.bus.ram
    requires m.d.lines[Row(p.line)] == RamLine(m.bus.ram, p.line) && n.d.tags[Row(p.line)] == p.line / ROWS
    ensures View(n, p, l) == RamLine(m.bus.ram, l)
  {
    hide RamLine;
    LineSplits(l, p.line);
  }

  lemma AgreesE(m: Machine, p: Proc, x: Input, l: nat)
    requires Inv(m, p) && Allowed(m, p, x) && m.d.state == StateE
    ensures Shaped(m) && Inv(Cycle(m, x), x.proc) && Shaped(Cycle(m, x)) && !Cycle(m, x).d.ack
    ensures View(Cycle(m, x), x.proc, l) == View(m, p, l)
  {
    hide Cycle, Inv, RamLine, NewData, View;
    InvShaped(m, p);
    if NewData(m, x).respack { StepTaken(m, p, x); } else { StepNoBeat(m, p, x); }
    InvShaped(Cycle(m, x), x.proc);
    if Row(l) != Row(p.line) {
      OtherRow(m, p, Cycle(m, x), l);
    } else {
      Filling(m, p, l);
      if Cycle(m, x).d.state == StateE {
        Filling(Cycle(m, x), p, l);
      } else {
        Arrived(m, p);
        Settled(m, p, Cycle(m, x), l);
      }
    }
  }

  /** Every clock keeps the invariant; the view changes only where an acknowledged store
      says so; and an acknowledged load returns the view. */
  lemma ClockAgrees(m: Machine, p: Proc, x: Input, l: nat)
    requires Inv(m, p) && Allowed(m, p, x) && ValidProc(p)
    ensures Shaped(m) && Agrees(m, p, Cycle(m, x), x.proc, l)
  {
    hide Cycle, Inv, View, LoadValue, Hit, Stored, RamLine;
    InvShaped(m, p);
    match m.d.state
    case StateA => AgreesA(m, p, x, l);
    case StateB =>
      if !Hit(m.d, p) { AgreesMiss(m, p, x, l); }
      else if p.write { AgreesStore(m, p, x, l); }
      else { AgreesLoad(m, p, x, l); }
    case StateC => AgreesC(m, p, x, l);
    case StateD => AgreesD(m, p, x, l);
    case StateE => AgreesE(m, p, x, l);
  }

  // ---------------------------------------------------------------- bytes

  /** Byte `a` of memory as the program sees it. */
  ghost function ViewByte(m: Machine, p: Proc, a: nat): byte
    requires Shaped(m)
  {
    MemByte(View(m, p, a / 64), a % 64)
  }

  function Address(p: Proc, accessType: nat): nat {
    64 * p.line + Start(p, accessType)
  }

  /** Byte `i` of a loaded value, most significant first; a doubleword comes as its low
      half and then its high half. */
  function LoadByte(v: seq<byte>, loadType: nat, i: nat): byte
    requires |v| == 8 && i < Size(loadType)
  {
    if loadType < 3 then v[Size(loadType) - 1 - i] else if i < 4 then v[3 - i] else v[11 - i]
  }

  lemma InLine(p: Proc, accessType: nat)
    requires ValidProc(p)
    ensures Start(p, accessType) + Size(accessType) <= 64
  {
    if accessType == 0 {
    } else if accessType == 1 {
    } else if accessType == 2 {
    }
  }

  /** A clock changes the bytes of an acknowledged store, and no others. */
  lemma StoreStep(m: Machine, p: Proc, x: Input, a: nat)
    requires Inv(m, p) && Allowed(m, p, x) && ValidProc(p)
    ensures Shaped(m) && Inv(Cycle(m, x), x.proc) && Shaped(Cycle(m, x))
    ensures var at := Address(p, p.storeType);
            ViewByte(Cycle(m, x), x.proc, a) ==
            if Cycle(m, x).d.ack && p.write && at <= a < at + Size(p.storeType) then StoreByte(p, a - at) else ViewByte(m, p, a)
  {
    hide Cycle, Inv, View, MemByte, Stored, Start, Size, StoreByte, LoadValue;
    ClockAgrees(m, p, x, a / 64);
    InLine(p, p.storeType);
    if Cycle(m, x).d.ack && p.write && a / 64 == p.line {
      StoreMeaning(View(m, p, p.line), p, a % 64);
    }
  }

  /** An acknowledged load returns the bytes at its address. */
  lemma LoadStep(m: Machine, p: Proc, x: Input, i: nat)
    requires Inv(m, p) && Allowed(m, p, x) && ValidProc(p) && i < Size(p.loadType)
    ensures Shaped(m) && |Cycle(m, x).d.dataOut| == 8
    ensures Cycle(m, x).d.ack && !p.write ==>
              x.proc == p && LoadByte(Cycle(m, x).d.dataOut, p.loadType, i) == ViewByte(m, p, Address(p, p.loadType) + i)
  {
    hide Cycle, Inv, View, MemByte, Stored, Start, Size, LoadValue, WordOf;
    ClockAgrees(m, p, x, p.line);
    InLine(p, p.loadType);
    LoadMeaning(View(m, p, p.line), p, i);
    InvCache(Cycle(m, x), x.proc);
  }

  // ---------------------------------------------------------------- runs

  /** The inputs of a run, in which every request is held until it is acknowledged. */
  ghost predicate Legal(m: Machine, p: Proc, xs: seq<Input>)
    decreases |xs|
  {
    xs == [] || (Shaped(m) && Allowed(m, p, xs[0]) && Legal(Cycle(m, xs[0]), xs[0].proc, xs[1..]))
  }

  ghost function After(m: Machine, p: Proc, xs: seq<Input>): Machine
    requires Legal(m, p, xs)
    decreases |xs|
  {
    if xs == [] then m else After(Cycle(m, xs[0]), xs[0].proc, xs[1..])
  }

  function Held(p: Proc, xs: seq<Input>): Proc {
    if xs == [] then p else xs[|xs| - 1].proc
  }

  /** An acknowledged access, and the value on `proc_data_out`. */
  datatype Access = Access(p: Proc, value: seq<byte>)

  /** The accesses acknowledged in a run, in order. */
  ghost function Accesses(m: Machine, p: Proc, xs: seq<Input>): seq<Access>
    requires Legal(m, p, xs)
    decreases |xs|
  {
    if xs == [] then []
    else
      var n := Cycle(m, xs[0]);
      (if n.d.ack then [Access(xs[0].proc, n.d.dataOut)] else []) + Accesses(n, xs[0].proc, xs[1..])
  }

  /** A flat memory: byte `a` is what the latest store to it wrote, and `initial(a)` before any. */
  ghost function FlatByte(initial: nat -> byte, done: seq<Access>, a: nat): byte
    requires forall i :: 0 <= i < |done| ==> ValidProc(done[i].p)
  {
    if done == [] then initial(a)
    else
      var p := done[|done| - 1].p;
      var at := Address(p, p.storeType);
      if p.write && at <= a < at + Size(p.storeType) then StoreByte(p, a - at)
      else FlatByte(initial, done[..|done| - 1], a)
  }

  lemma {:induction false} AccessesValid(m: Machine, p: Proc, xs: seq<Input>)
    requires Legal(m, p, xs)
    ensures forall i :: 0 <= i < |Accesses(m, p, xs)| ==> ValidProc(Accesses(m, p, xs)[i].p)
    decreases |xs|
  {
    hide Cycle;
    if xs != [] {
      AccessesValid(Cycle(m, xs[0]), xs[0].proc, xs[1..]);
    }
  }

  lemma KeepsOnly(m: Machine, p: Proc, x: Input, l: nat)
    requires Shaped(m) && ValidProc(x.proc) && Agrees(m, p, Cycle(m, x), x.proc, l)
    ensures Inv(Cycle(m, x), x.proc)
  {
    hide Cycle, Inv;
  }

  /** The invariant holds wherever a run leads. */
  lemma {:induction false} RunKeeps(m: Machine, p: Proc, xs: seq<Input>)
    requires Inv(m, p) && ValidProc(p) && Legal(m, p, xs)
    ensures Inv(After(m, p, xs), Held(p, xs)) && ValidProc(Held(p, xs))
    decreases |xs|
  {
    hide Cycle, Inv, Agrees;
    if xs != [] {
      ClockAgrees(m, p, xs[0], 0);
      KeepsOnly(m, p, xs[0], 0);
      RunKeeps(Cycle(m, xs[0]), xs[0].proc, xs[1..]);
      assert Held(xs[0].proc, xs[1..]) == Held(p, xs);
    }
  }

  ghost predicate Matches(initial: nat -> byte, done: seq<Access>, m: Machine, p: Proc) {
    Shaped(m) && (forall i :: 0 <= i < |done| ==> ValidProc(done[i].p)) &&
    forall a: nat :: ViewByte(m, p, a) == FlatByte(initial, done, a)
  }

  lemma AckedHeld(m: Machine, p: Proc, x: Input)
    requires Inv(m, p) && Allowed(m, p, x) && ValidProc(p) && Shaped(m) && Cycle(m, x).d.ack
    ensures x.proc == p
  {
    hide Cycle, Inv, View, LoadValue, Stored;
    ClockAgrees(m, p, x, 0);
  }

  /** One clock, against the flat memory. */
  lemma FlatStep(initial: nat -> byte, done: seq<Access>, m: Machine, p: Proc, x: Input)
    requires Inv(m, p) && Allowed(m, p, x) && ValidProc(p) && Matches(initial, done, m, p)
    ensures var n := Cycle(m, x);
            Inv(n, x.proc) && Matches(initial, if n.d.ack then done + [Access(x.proc, n.d.dataOut)] else done, n, x.proc)
  {
    hide Cycle, Inv, ViewByte, Stored, Start, Size, StoreByte, Address;
    var n := Cycle(m, x);
    var e := Access(x.proc, n.d.dataOut);
    StoreStep(m, p, x, 0);
    assert (done + [e])[..|done|] == done;
    if n.d.ack { AckedHeld(m, p, x); }
    forall a: nat ensures ViewByte(n, x.proc, a) == FlatByte(initial, if n.d.ack then done + [e] else done, a) {
      StoreStep(m, p, x, a);
    }
  }

  /** What a load among the accesses of a run returns, given what went before the run. */
  ghost predicate LoadIsFlat(initial: nat -> byte, done: seq<Access>, e: Access, j: nat)
    requires forall i :: 0 <= i < |done| ==> ValidProc(done[i].p)
  {
    |e.value| == 8 &&
    (!e.p.write && j < Size(e.p.loadType) ==>
       LoadByte(e.value, e.p.loadType, j) == FlatByte(initial, done, Address(e.p, e.p.loadType) + j))
  }

  lemma OneByte(accessType: nat)
    ensures 0 < Size(accessType)
  {
  }

  lemma FirstLoad(initial: nat -> byte, done: seq<Access>, m: Machine, p: Proc, x: Input, j: nat)
    requires Inv(m, p) && Allowed(m, p, x) && ValidProc(p) && Matches(initial, done, m, p) && Cycle(m, x).d.ack
    ensures LoadIsFlat(initial, done, Access(x.proc, Cycle(m, x).d.dataOut), j)
  {
    hide Cycle, Inv, ViewByte, LoadByte, Size, Address, FlatByte;
    AckedHeld(m, p, x);
    LoadStep(m, p, x, 0) by { OneByte(p.loadType); }
    if j < Size(p.loadType) { LoadStep(m, p, x, j); }
  }

  lemma LegalStep(m: Machine, p: Proc, xs: seq<Input>)
    requires Legal(m, p, xs) && xs != []
    ensures Shaped(m) && Allowed(m, p, xs[0]) && ValidProc(xs[0].proc) && Legal(Cycle(m, xs[0]), xs[0].proc, xs[1..])
  {
    hide Cycle;
  }

  lemma MatchesValid(initial: nat -> byte, done: seq<Access>, m: Machine, p: Proc)
    requires Matches(initial, done, m, p)
    ensures forall i :: 0 <= i < |done| ==> ValidProc(done[i].p)
  {
  }

  lemma {:induction false} LoadAt(initial: nat -> byte, done: seq<Access>, m: Machine, p: Proc, xs: seq<Input>, i: nat, j: nat)
    requires Inv(m, p) && ValidProc(p) && Legal(m, p, xs) && Matches(initial, done, m, p) && i < |Accesses(m, p, xs)|
    ensures forall k :: 0 <= k < |done + Accesses(m, p, xs)[..i]| ==> ValidProc((done + Accesses(m, p, xs)[..i])[k].p)
    ensures LoadIsFlat(initial, done + Accesses(m, p, xs)[..i], Accesses(m, p, xs)[i], j)
    decreases |xs|
  {
    hide Cycle, Inv, Matches, LoadIsFlat, Legal, Allowed;
    LegalStep(m, p, xs);
    var n, q := Cycle(m, xs[0]), xs[0].proc;
    var e, rest := Access(q, n.d.dataOut), Accesses(n, q, xs[1..]);
    FlatStep(initial, done, m, p, xs[0]);
    if !n.d.ack {
      assert [] + rest == rest;
      LoadAt(initial, done, n, q, xs[1..], i, j);
    } else if i == 0 {
      MatchesValid(initial, done, m, p);
      FirstLoad(initial, done, m, p, xs[0], j);
      assert done + Accesses(m, p, xs)[..0] == done;
    } else {
      LoadAt(initial, done + [e], n, q, xs[1..], i - 1, j);
      assert done + [e] + rest[..i - 1] == done + ([e] + rest)[..i];
    }
  }

  /** The memory a program finds: cached lines where the tags name them, RAM elsewhere. */
  ghost function Found(m: Machine, p: Proc): nat -> byte
    requires Shaped(m)
  {
    (a: nat) => ViewByte(m, p, a)
  }

  lemma NothingDone(m: Machine, p: Proc)
    requires Shaped(m)
    ensures Matches(Found(m, p), [], m, p)
  {
    hide ViewByte;
  }

  /** In every run, byte `j` of acknowledged load `i` is what the latest acknowledged store to
      that address before it wrote, or what was found there if there was none. */
  lemma FlatMemory(m: Machine, p: Proc, xs: seq<Input>, i: nat, j: nat)
    requires Inv(m, p) && ValidProc(p) && Legal(m, p, xs) && i < |Accesses(m, p, xs)|
    ensures Shaped(m) && forall k :: 0 <= k < i ==> ValidProc(Accesses(m, p, xs)[k].p)
    ensures var e := Accesses(m, p, xs)[i];
            |e.value| == 8 &&
            (!e.p.write && j < Size(e.p.loadType) ==>
               LoadByte(e.value, e.p.loadType, j) == FlatByte(Found(m, p), Accesses(m, p, xs)[..i], Address(e.p, e.p.loadType) + j))
  {
    hide Cycle, Inv, Legal, ViewByte, LoadByte, Size, Address, FlatByte, Accesses;
    InvShaped(m, p);
    NothingDone(m, p);
    AccessesValid(m, p, xs);
    LoadAt(Found(m, p), [], m, p, xs, i, j);
    assert [] + Accesses(m, p, xs)[..i] == Accesses(m, p, xs)[..i];
  }

  // ---------------------------------------------------------------- from reset

  lemma RamWordByte(ram: seq<byte>, a: nat, i: nat)
    requires a + 8 <= |ram| && i < 8
    ensures RamWord(ram, a)[i] == ram[a + 7 - i]
  {
    assert ram[a..a + 8][7 - i] == ram[a + 7 - i];
  }

  /** Byte `a` of a line, as RAM holds it. */
  lemma RamByte(ram: seq<byte>, n: nat, a: nat)
    requires a < 64 && InRam(ram, n)
    ensures MemByte(RamLine(ram, n), a) == ram[64 * n + a]
  {
    hide RamLine, RamWord;
    RamLineWord(ram, n, a / 8);
    ByteLane(RamLine(ram, n), a / 8, a % 8);
    RamWordByte(ram, 64 * n + 8 * (a / 8), 7 - a % 8);
  }

  /** After a reset the sixteen rows pretend to hold lines 240 to 255, dirty; the invariant
      asks only that those lines exist. */
  lemma InitialInv(ram: seq<byte>, p: Proc)
    requires |ram| >= 0x4000 && ValidProc(p) && InRam(ram, p.line)
    ensures Inv(Initial(ram), p)
  {
    hide RamLine;
    var m := Initial(ram);
    forall r | 0 <= r < ROWS ensures InRam(ram, LineAt(m.d, r)) {
      assert LineAt(m.d, r) == 240 + r;
    }
  }

  lemma ResetShaped(ram: seq<byte>)
    ensures Shaped(Initial(ram))
  {
  }

  lemma ResetView(ram: seq<byte>, p: Proc, l: nat)
    requires Shaped(Initial(ram))
    ensures View(Initial(ram), p, l) == if 240 <= l < 256 then [15] + NoLanes(63) else RamLine(ram, l)
  {
    hide RamLine, NoLanes;
    TagNames(l, 15, Row(l));
  }

  lemma ResetByte(a: nat)
    requires a < 64
    ensures MemByte([15] + NoLanes(63), a) == if a == 7 then 15 else 0
  {
  }

  /** What a program finds after a reset: RAM, but for the kilobyte that the rows of the cache
      stand before, whose doublewords read as 15 in the first of each line and 0 elsewhere. */
  lemma FoundAfterReset(ram: seq<byte>, p: Proc, a: nat)
    requires |ram| >= 0x4000 && a / 64 * 64 + 64 <= |ram|
    ensures Shaped(Initial(ram))
    ensures Found(Initial(ram), p)(a) == if 0x3c00 <= a < 0x4000 then (if a % 64 == 7 then 15 else 0) else ram[a]
  {
    hide RamLine, MemByte, View, Initial;
    ResetShaped(ram);
    ResetView(ram, p, a / 64);
    if 240 <= a / 64 < 256 {
      ResetByte(a % 64);
    } else {
      RamByte(ram, a / 64, a % 64);
    }
  }

  /** The whole statement, from reset. */
  lemma FlatMemoryFromReset(ram: seq<byte>, p: Proc, xs: seq<Input>, i: nat, j: nat)
    requires |ram| >= 0x4000 && ValidProc(p) && InRam(ram, p.line)
    requires Legal(Initial(ram), p, xs) && i < |Accesses(Initial(ram), p, xs)|
    ensures Shaped(Initial(ram)) && forall k :: 0 <= k < i ==> ValidProc(Accesses(Initial(ram), p, xs)[k].p)
    ensures var e := Accesses(Initial(ram), p, xs)[i];
            |e.value| == 8 &&
            (!e.p.write && j < Size(e.p.loadType) ==>
               LoadByte(e.value, e.p.loadType, j) ==
               FlatByte(Found(Initial(ram), p), Accesses(Initial(ram), p, xs)[..i], Address(e.p, e.p.loadType) + j))
  {
    hide *;
    InitialInv(ram, p);
    FlatMemory(Initial(ram), p, xs, i, j);
  }

  /** Wherever a run leads, a clean row that is not being refilled equals RAM. */
  lemma CleanSettled(m: Machine, p: Proc, xs: seq<Input>, r: nat)
    requires Inv(m, p) && ValidProc(p) && Legal(m, p, xs) && r < ROWS
    ensures var n := After(m, p, xs);
            Sized(n.d) && (!n.d.dirty[r] && !Refilling(n.d, Held(p, xs), r) ==> n.d.lines[r] == RamLine(n.bus.ram, LineAt(n.d, r)))
  {
    hide RamLine, Inv, After, Legal;
    RunKeeps(m, p, xs);
    InvCache(After(m, p, xs), Held(p, xs));
  }

  lemma LooksUp(ram: seq<byte>, p: Proc, x: Input)
    requires |ram| >= 0x4000 && ValidProc(p) && p.req && 240 <= p.line < 256 && x.proc == p
    ensures Shaped(Initial(ram)) && Acknowledged(Cycle(Initial(ram), x), p) && !Acknowledged(Initial(ram), p)
  {
    hide FetchNext, Present, Pop, CompleteAll, LoadValue, StoreData, NoLanes;
    LineSplits(p.line, 240 + Row(p.line));
  }

  lemma AcksAre(m: Machine, p: Proc, n: Machine, q: Proc, l: nat)
    requires Agrees(m, p, n, q, l)
    ensures n.d.ack <==> Acknowledged(m, p)
  {
    hide Inv, View;
  }

  lemma OneOfTwo(m: Machine, p: Proc, x: Input)
    requires Shaped(m) && ValidProc(p) && Allowed(m, p, x) && x.proc == p && Shaped(Cycle(m, x)) && Allowed(Cycle(m, x), p, x)
    requires !Cycle(m, x).d.ack && Cycle(Cycle(m, x), x).d.ack
    ensures Legal(m, p, [x, x]) && |Accesses(m, p, [x, x])| == 1 && Accesses(m, p, [x, x])[0].p == p
  {
    hide Cycle, Allowed;
    assert [x, x][1..] == [x] && [x][1..] == [];
    var n := Cycle(m, x);
    assert Legal(Cycle(n, x), p, []) && Accesses(Cycle(n, x), p, []) == [];
    assert Legal(n, p, [x]) && Accesses(n, p, [x]) == [Access(p, Cycle(n, x).d.dataOut)];
  }

  /** Runs with accesses exist: after a reset a request for one of the lines that the rows
      pretend to hold is acknowledged at its second clock. */
  lemma FirstAccess(ram: seq<byte>, p: Proc, f: Fetch)
    requires |ram| >= 0x4000 && ValidProc(p) && p.req && 240 <= p.line < 256
    ensures var x := Input(p, f, []);
            Legal(Initial(ram), p, [x, x]) && |Accesses(Initial(ram), p, [x, x])| == 1 &&
            Accesses(Initial(ram), p, [x, x])[0].p == p
  {
    hide Cycle, LoadValue, Agrees, Inv, View;
    var m, x := Initial(ram), Input(p, f, []);
    InitialInv(ram, p);
    InvShaped(m, p);
    StepA(m, p, x);
    ClockAgrees(m, p, x, 0);
    var n := Cycle(m, x);
    InvShaped(n, p);
    LooksUp(ram, p, x);
    ClockAgrees(n, p, x, 0);
    AcksAre(m, p, n, p, 0);
    AcksAre(n, p, Cycle(n, x), p, 0);
    OneOfTwo(m, p, x);
  }
}
