/** The request/pending/done handshake of Testbenches/cpu_baseline.v: UART and interrupt-controller
    accesses of the MEM stage, the reservation monitor beside it, and the freeze that all stall
    sources share.  Peripherals may take any number of cycles of at least one to answer. */
module Mmio {

  datatype Device = Uart | Intc | Memory

  /** The windows behind UART_MMIO_MASK and INTC_MMIO_MASK. */
  function Decode(addr: nat): Device {
    if addr / 16 == 0x400_0100 then Uart else if addr / 8 == 0x800 then Intc else Memory
  }

  /** LED and CLINT, which answer at once. */
  predicate IsLocal(addr: nat) { addr == 0x2000 || addr / 16 == 0x20_0000 }

  /** What EX/MEM holds. */
  datatype Instr = Instr(addr: nat, load: bool, store: bool, lr: bool, sc: bool)

  datatype Channel = Channel(pending: bool, done: bool, latched: nat)

  datatype Reply = Silent | Ready(rdata: nat)

  datatype Core = Core(mem: Instr, uart: Channel, intc: Channel, locked: bool, reserved: nat)

  /** One cycle's inputs: what EX offers, the instruction-side and divider stalls, traps, the data cache,
      the read data of everything that is not a device, and the two ready/rdata pairs. */
  datatype Input = Input(next: Instr, stall: bool, trap: bool, hit: bool, data: nat, uart: Reply, intc: Reply)

  function Chan(s: Core, d: Device): Channel { if d == Uart then s.uart else s.intc }

  function Answer(x: Input, d: Device): Reply { if d == Uart then x.uart else x.intc }

  // ----- the wires

  predicate ScSuccess(s: Core) { s.locked && s.mem.addr == s.reserved }

  predicate StoreCommits(s: Core) { s.mem.store && (!s.mem.sc || ScSuccess(s)) }

  predicate ValidOn(s: Core, d: Device) { Decode(s.mem.addr) == d && (s.mem.load || StoreCommits(s)) }

  predicate Req(s: Core, d: Device) { ValidOn(s, d) && !Chan(s, d).pending && !Chan(s, d).done }

  predicate StallOn(s: Core, d: Device) { ValidOn(s, d) && !Chan(s, d).done }

  predicate Cached(s: Core) { Decode(s.mem.addr) == Memory && !IsLocal(s.mem.addr) }

  predicate DmemStall(s: Core, x: Input) { Cached(s) && (s.mem.load || StoreCommits(s)) && !x.hit }

  predicate Frozen(s: Core, x: Input) { DmemStall(s, x) || x.stall || StallOn(s, Uart) || StallOn(s, Intc) }

  predicate LrSet(s: Core, x: Input) { s.mem.lr && s.mem.load && Cached(s) && x.hit }

  predicate StoreClears(s: Core, x: Input) {
    s.mem.store && !s.mem.sc &&
    (IsLocal(s.mem.addr) || (Cached(s) && x.hit) || (Decode(s.mem.addr) == Uart && x.uart.Ready?)
     || (Decode(s.mem.addr) == Intc && x.intc.Ready?))
  }

  function ReadData(s: Core, x: Input): nat {
    match Decode(s.mem.addr)
    case Uart => s.uart.latched
    case Intc => s.intc.latched
    case Memory => x.data
  }

  // ----- the registers

  const NOP := Instr(0, false, false, false, false)
  const IDLE := Channel(false, false, 0)

  class Pipeline {
    var mem: Instr
    var uart: Channel
    var intc: Channel
    var locked: bool
    var reserved: nat
    var committed: seq<(Instr, nat)>

    function State(): Core reads this { Core(mem, uart, intc, locked, reserved) }

    constructor ()
      ensures State() == Core(NOP, IDLE, IDLE, false, 0) && committed == []
    {
      mem, uart, intc, locked, reserved, committed := NOP, IDLE, IDLE, false, 0, [];
    }

    /** The clocked blocks: both channels, the reservation monitor, EX/MEM and MEM/WB. */
    method Clock(x: Input)
      modifies this
      ensures State() == Next(old(State()), x)
      ensures committed == old(committed) + (if Frozen(old(State()), x) then [] else [(old(mem), ReadData(old(State()), x))])
    {
      var s := State();
      var newUart := ClockChannel(s, x, Uart);
      var newIntc := ClockChannel(s, x, Intc);
      if x.trap {
        locked := false;
      } else if LrSet(s, x) {
        locked, reserved := true, mem.addr;
      } else if mem.sc && !Frozen(s, x) {
        locked := false;
      } else if StoreClears(s, x) {
        locked := false;
      }
      if !Frozen(s, x) {
        committed := committed + [(mem, ReadData(s, x))];
        mem := x.next;
      }
      uart, intc := newUart, newIntc;
    }
  }

  /** The clocked block both channels have. */
  method ClockChannel(s: Core, x: Input, d: Device) returns (c: Channel)
    ensures c == NextChannel(s, x, d)
  {
    var pending, done, latched := Chan(s, d).pending, Chan(s, d).done, Chan(s, d).latched;
    if Req(s, d) {
      pending := true;
    } else if Answer(x, d).Ready? {
      pending := false;
    }
    if Answer(x, d).Ready? {
      done, latched := true, Answer(x, d).rdata;
    } else if !Frozen(s, x) {
      done := false;
    }
    c := Channel(pending, done, latched);
  }

  function NextChannel(s: Core, x: Input, d: Device): Channel {
    var c, r := Chan(s, d), Answer(x, d);
    Channel(Req(s, d) || (c.pending && r.Silent?),
            r.Ready? || (c.done && Frozen(s, x)),
            if r.Ready? then r.rdata else c.latched)
  }

  function Next(s: Core, x: Input): Core {
    Core(if Frozen(s, x) then s.mem else x.next, NextChannel(s, x, Uart), NextChannel(s, x, Intc),
         !x.trap && (LrSet(s, x) || (s.locked && !(s.mem.sc && !Frozen(s, x)) && !StoreClears(s, x))),
         if !x.trap && LrSet(s, x) then s.mem.addr else s.reserved)
  }

  // ----- what an observer of the buses sees

  datatype Event = Asked(d: Device) | Told(d: Device, rdata: nat) | Retired(i: Instr, data: nat)

  function Requests(s: Core, d: Device): seq<Event> { if Req(s, d) then [Asked(d)] else [] }

  function Replies(x: Input, d: Device): seq<Event> {
    if Answer(x, d).Ready? then [Told(d, Answer(x, d).rdata)] else []
  }

  function Emits(s: Core, x: Input): seq<Event> {
    Requests(s, Uart) + Requests(s, Intc) + Replies(x, Uart) + Replies(x, Intc)
    + (if Frozen(s, x) then [] else [Retired(s.mem, ReadData(s, x))])
  }

  /** The processor and, of each peripheral, whether it owes an answer. */
  datatype System = System(core: Core, owesUart: bool, owesIntc: bool, log: seq<Event>)

  predicate Owes(y: System, d: Device) { if d == Uart then y.owesUart else y.owesIntc }

  /** A peripheral answers only a request made in an earlier cycle, and each request once. */
  predicate Legal(y: System, x: Input) {
    (x.uart.Ready? ==> y.owesUart) && (x.intc.Ready? ==> y.owesIntc)
  }

  function Tick(y: System, x: Input): System {
    System(Next(y.core, x), Req(y.core, Uart) || (y.owesUart && x.uart.Silent?),
           Req(y.core, Intc) || (y.owesIntc && x.intc.Silent?), y.log + Emits(y.core, x))
  }

  const RESET := System(Core(NOP, IDLE, IDLE, false, 0), false, false, [])

  function Run(y: System, xs: seq<Input>): System
    decreases |xs|
  {
    if xs == [] then y else Tick(Run(y, xs[..|xs| - 1]), xs[|xs| - 1])
  }

  predicate LegalRun(y: System, xs: seq<Input>)
    decreases |xs|
  {
    xs != [] ==> LegalRun(y, xs[..|xs| - 1]) && Legal(Run(y, xs[..|xs| - 1]), xs[|xs| - 1])
  }

  // ----- what every cycle keeps

  /** A device access: a load, or a store that is not conditional. */
  predicate Access(i: Instr, d: Device) { Decode(i.addr) == d && d != Memory && (i.load || (i.store && !i.sc)) }

  /** One device access of an observer's log, from request to retirement. */
  function Episode(i: Instr, data: nat): seq<Event> {
    (if Access(i, Decode(i.addr)) then [Asked(Decode(i.addr)), Told(Decode(i.addr), data)] else [])
    + [Retired(i, data)]
  }

  function Episodes(log: seq<(Instr, nat)>): seq<Event> {
    if log == [] then [] else Episodes(log[..|log| - 1]) + Episode(log[|log| - 1].0, log[|log| - 1].1)
  }

  /** What the log shows of the instruction that is still in MEM. */
  function Unfinished(s: Core): seq<Event> {
    var d := Decode(s.mem.addr);
    if !Access(s.mem, d) then []
    else if Chan(s, d).done then [Asked(d), Told(d, Chan(s, d).latched)]
    else if Chan(s, d).pending then [Asked(d)]
    else []
  }

  ghost predicate Inv(y: System) {
    && (y.core.locked ==> Decode(y.core.reserved) == Memory)
    && ChannelInv(y, Uart) && ChannelInv(y, Intc)
  }

  predicate ChannelInv(y: System, d: Device) {
    var c := Chan(y.core, d);
    && (Owes(y, d) <==> c.pending)
    && (if Access(y.core.mem, d) then !(c.pending && c.done) else !c.pending && !c.done)
  }

  /** The reservation monitor never lets a conditional store reach a device, so whether the stage is an
      access is fixed by the frozen instruction. */
  lemma ValidIsAccess(y: System, d: Device)
    requires Inv(y) && d != Memory
    ensures ValidOn(y.core, d) <==> Access(y.core.mem, d)
  {
  }

  lemma TickInv(y: System, x: Input)
    requires Inv(y) && Legal(y, x)
    ensures Inv(Tick(y, x))
  {
    ValidIsAccess(y, Uart);
    ValidIsAccess(y, Intc);
  }

  /** A cycle extends the log of the unfinished instruction, or completes its episode. */
  lemma TickLog(y: System, x: Input)
    requires Inv(y) && Legal(y, x)
    ensures Unfinished(y.core) + Emits(y.core, x) ==
      if Frozen(y.core, x) then Unfinished(Tick(y, x).core)
      else Episode(y.core.mem, ReadData(y.core, x))
    ensures !Frozen(y.core, x) ==> Unfinished(Tick(y, x).core) == []
  {
    ValidIsAccess(y, Uart);
    ValidIsAccess(y, Intc);
  }

  /** The retirements of a run. */
  function Commits(y: System, xs: seq<Input>): seq<(Instr, nat)>
    decreases |xs|
  {
    if xs == [] then [] else
      var z, x := Run(y, xs[..|xs| - 1]), xs[|xs| - 1];
      Commits(y, xs[..|xs| - 1]) + (if Frozen(z.core, x) then [] else [(z.core.mem, ReadData(z.core, x))])
  }

  /** Exactly once: over every run from reset, under any stalls, traps and answer delays, the bus log is
      the retired instructions in order, each device access with exactly one request and one answer whose
      data is what it commits, and nothing else but the instruction in flight. */
  lemma {:induction false} ExactlyOnce(xs: seq<Input>)
    requires LegalRun(RESET, xs)
    ensures Inv(Run(RESET, xs))
    ensures Run(RESET, xs).log == Episodes(Commits(RESET, xs)) + Unfinished(Run(RESET, xs).core)
    decreases |xs|
  {
    if xs == [] {
      assert Unfinished(RESET.core) == [];
    } else {
      var ws, x := xs[..|xs| - 1], xs[|xs| - 1];
      ExactlyOnce(ws);
      var y := Run(RESET, ws);
      TickInv(y, x);
      TickLog(y, x);
      LogGrows(Commits(RESET, ws), y, x);
    }
  }

  lemma LogGrows(cs: seq<(Instr, nat)>, y: System, x: Input)
    requires Inv(y) && Legal(y, x) && y.log == Episodes(cs) + Unfinished(y.core)
    ensures
      var ds := cs + (if Frozen(y.core, x) then [] else [(y.core.mem, ReadData(y.core, x))]);
      Tick(y, x).log == Episodes(ds) + Unfinished(Tick(y, x).core)
  {
    TickLog(y, x);
    if Frozen(y.core, x) {
      assert cs + [] == cs;
      Extends(cs, Unfinished(y.core), Emits(y.core, x), Unfinished(Tick(y, x).core));
    } else {
      Completes(cs, Unfinished(y.core), Emits(y.core, x), y.core.mem, ReadData(y.core, x));
    }
  }

  lemma Extends(cs: seq<(Instr, nat)>, u: seq<Event>, e: seq<Event>, v: seq<Event>)
    requires u + e == v
    ensures Episodes(cs) + u + e == Episodes(cs) + v
  {
  }

  lemma Completes(cs: seq<(Instr, nat)>, u: seq<Event>, e: seq<Event>, i: Instr, data: nat)
    requires u + e == Episode(i, data)
    ensures Episodes(cs) + u + e == Episodes(cs + [(i, data)]) + []
  {
    EpisodesGrow(cs, i, data);
    Extends(cs, u, e, Episode(i, data));
  }

  lemma EpisodesGrow(cs: seq<(Instr, nat)>, i: Instr, data: nat)
    ensures Episodes(cs + [(i, data)]) == Episodes(cs) + Episode(i, data) + []
  {
    assert (cs + [(i, data)])[..|cs|] == cs;
  }

  // ----- no livelock

  /** The answer to d comes at cycle k and no other source lets go between k and the end of xs. */
  predicate Answered(xs: seq<Input>, d: Device, k: nat) {
    && k < |xs| && Answer(xs[k], d).Ready?
    && (forall t :: 0 <= t < k ==> Answer(xs[t], d).Silent?)
  }

  predicate HeldAfter(xs: seq<Input>, k: nat) { forall t :: k < t < |xs| ==> xs[t].stall }

  lemma AskCycle(z: System, x: Input, d: Device)
    requires Inv(z) && Legal(z, x) && Access(z.core.mem, d) && Unfinished(z.core) == []
    ensures var n := Tick(z, x); n.core.mem == z.core.mem && Unfinished(n.core) == [Asked(d)] && n.log == z.log + [Asked(d)]
  {
    ValidIsAccess(z, d);
    TickInv(z, x);
    TickLog(z, x);
  }

  lemma WaitCycle(z: System, x: Input, d: Device)
    requires Inv(z) && Legal(z, x) && Access(z.core.mem, d) && Unfinished(z.core) == [Asked(d)]
    ensures var n := Tick(z, x);
      && n.core.mem == z.core.mem
      && Unfinished(n.core) == [Asked(d)] + Replies(x, d) && n.log == z.log + Replies(x, d)
  {
    ValidIsAccess(z, d);
    TickLog(z, x);
  }

  lemma HoldCycle(z: System, x: Input, d: Device, v: nat)
    requires Inv(z) && Legal(z, x) && Access(z.core.mem, d) && Unfinished(z.core) == [Asked(d), Told(d, v)] && x.stall
    ensures var n := Tick(z, x); n.core.mem == z.core.mem && Unfinished(n.core) == Unfinished(z.core) && n.log == z.log
  {
    ValidIsAccess(z, d);
    TickLog(z, x);
  }

  /** From a fresh access on: the request goes out at once, the answer is latched, and until another source
      lets go nothing moves. */
  lemma {:induction false} Waiting(y: System, xs: seq<Input>, d: Device)
    requires Inv(y) && LegalRun(y, xs) && Access(y.core.mem, d) && Unfinished(y.core) == []
    requires forall t :: 0 <= t < |xs| ==> Answer(xs[t], d).Silent?
    ensures var z := Run(y, xs); Inv(z) && z.core.mem == y.core.mem
    ensures var u := if xs == [] then [] else [Asked(d)]; Unfinished(Run(y, xs).core) == u && Run(y, xs).log == y.log + u
    decreases |xs|
  {
    if xs != [] {
      var ws, x := xs[..|xs| - 1], xs[|xs| - 1];
      Waiting(y, ws, d);
      var z := Run(y, ws);
      TickInv(z, x);
      if ws == [] {
        AskCycle(z, x, d);
      } else {
        assert Replies(x, d) == [];
        WaitCycle(z, x, d);
      }
    }
  }

  lemma {:induction false} Held(y: System, xs: seq<Input>, d: Device, k: nat)
    requires Inv(y) && LegalRun(y, xs) && Access(y.core.mem, d) && Unfinished(y.core) == []
    requires Answered(xs, d, k) && HeldAfter(xs, k)
    ensures var z := Run(y, xs); Inv(z) && z.core.mem == y.core.mem
    ensures var u := [Asked(d), Told(d, Answer(xs[k], d).rdata)];
      Unfinished(Run(y, xs).core) == u && Run(y, xs).log == y.log + u
    decreases |xs|
  {
    var ws, x := xs[..|xs| - 1], xs[|xs| - 1];
    var z := Run(y, ws);
    if k == |ws| {
      Waiting(y, ws, d);
      TickInv(z, x);
      if k == 0 {
        assert false;
      }
      WaitCycle(z, x, d);
    } else {
      Held(y, ws, d, k);
      TickInv(z, x);
      HoldCycle(z, x, d, Answer(xs[k], d).rdata);
    }
  }

  /** The exact cycle of retirement: the first one after the answer in which neither the instruction side
      nor the divider stalls.  So once answered the access never stalls again, and two stall sources
      cannot keep each other waiting. */
  lemma RetiresWhenReleased(y: System, xs: seq<Input>, d: Device, k: nat, x: Input)
    requires Inv(y) && Access(y.core.mem, d) && Unfinished(y.core) == []
    requires LegalRun(y, xs) && Answered(xs, d, k) && HeldAfter(xs, k) && Legal(Run(y, xs), x)
    ensures Frozen(Run(y, xs).core, x) <==> x.stall
    ensures !x.stall ==> Tick(Run(y, xs), x).log == y.log + Episode(y.core.mem, Answer(xs[k], d).rdata)
  {
    Held(y, xs, d, k);
    ReleaseCycle(Run(y, xs), x, d, Answer(xs[k], d).rdata);
  }

  lemma ReleaseCycle(z: System, x: Input, d: Device, v: nat)
    requires Inv(z) && Legal(z, x) && Access(z.core.mem, d) && Unfinished(z.core) == [Asked(d), Told(d, v)]
    ensures Frozen(z.core, x) <==> x.stall
    ensures !x.stall ==> Tick(z, x).log == z.log + [Retired(z.core.mem, v)]
  {
    ValidIsAccess(z, Uart);
    ValidIsAccess(z, Intc);
    TickLog(z, x);
  }

  // ----- addresses

  predicate OnUart(a: nat) { 0x4000_1000 <= a <= 0x4000_100F }

  predicate OnIntc(a: nat) { 0x4000 <= a <= 0x4007 }

  predicate OnLocal(a: nat) { a == 0x2000 || 0x0200_0000 <= a <= 0x0200_000F }

  /** The windows are these ranges of addresses. */
  lemma DecodeMeans(a: nat)
    ensures Decode(a) == Uart <==> OnUart(a)
    ensures Decode(a) == Intc <==> OnIntc(a)
    ensures IsLocal(a) <==> OnLocal(a)
  {
  }

  /** Outside the devices an instruction waits for the instruction side, the divider and, on cached memory, a hit, and
      what it commits is what the memory side delivers in that cycle. */
  lemma MemoryFreezes(y: System, x: Input)
    requires Inv(y) && !OnUart(y.core.mem.addr) && !OnIntc(y.core.mem.addr)
    ensures ReadData(y.core, x) == x.data
    ensures var i := y.core.mem;
      Frozen(y.core, x) <==>
        (x.stall ||
         (!OnLocal(i.addr) && !x.hit && (i.load || (i.store && (i.sc ==> y.core.locked && y.core.reserved == i.addr)))))
  {
    DecodeMeans(y.core.mem.addr);
  }

  // ----- reservations

  /** A load-reserved of cached memory hits, and no trap is taken. */
  predicate Reserving(s: Core, x: Input) {
    s.mem.lr && s.mem.load && !OnUart(s.mem.addr) && !OnIntc(s.mem.addr) && !OnLocal(s.mem.addr) && x.hit && !x.trap
  }

  /** A trap is taken, a store-conditional retires, or any other store is done. */
  predicate Ending(s: Core, x: Input) {
    || x.trap || (s.mem.sc && !Frozen(s, x))
    || (s.mem.store && !s.mem.sc &&
        if OnUart(s.mem.addr) then x.uart.Ready? else if OnIntc(s.mem.addr) then x.intc.Ready?
        else OnLocal(s.mem.addr) || x.hit)
  }

  /** The processor at cycle k of a run. */
  function CoreAt(xs: seq<Input>, k: nat): Core
    requires k <= |xs|
  {
    Run(RESET, xs[..k]).core
  }

  /** The last reservation of a run is for address a, and nothing has ended it. */
  ghost predicate ReservedFor(xs: seq<Input>, a: nat) {
    exists k: nat :: ReservedAt(xs, a, k)
  }

  ghost predicate Undisturbed(xs: seq<Input>, k: nat) {
    forall m :: k < m < |xs| ==> !Reserving(CoreAt(xs, m), xs[m]) && !Ending(CoreAt(xs, m), xs[m])
  }

  lemma MonitorStep(s: Core, x: Input, a: nat)
    ensures Next(s, x).locked && Next(s, x).reserved == a <==>
      (if Reserving(s, x) then s.mem.addr == a else s.locked && s.reserved == a && !Ending(s, x))
  {
    DecodeMeans(s.mem.addr);
  }

  /** A run and the same run one cycle longer. */
  lemma Earlier(xs: seq<Input>, x: Input, k: nat)
    requires k <= |xs|
    ensures CoreAt(xs + [x], k) == CoreAt(xs, k)
    ensures (xs + [x])[k] == if k < |xs| then xs[k] else x
  {
    assert (xs + [x])[..k] == xs[..k];
  }

  lemma UndisturbedStep(xs: seq<Input>, x: Input, k: nat)
    requires k < |xs|
    ensures var s := CoreAt(xs, |xs|);
      Undisturbed(xs + [x], k) <==> Undisturbed(xs, k) && !Reserving(s, x) && !Ending(s, x)
  {
    forall m: nat | m <= |xs|
      ensures CoreAt(xs + [x], m) == CoreAt(xs, m) && (xs + [x])[m] == if m < |xs| then xs[m] else x
    {
      Earlier(xs, x, m);
    }
  }

  /** Cycle k made the reservation that holds at the end of the run. */
  ghost predicate ReservedAt(xs: seq<Input>, a: nat, k: nat) {
    k < |xs| && Reserving(CoreAt(xs, k), xs[k]) && CoreAt(xs, k).mem.addr == a && Undisturbed(xs, k)
  }

  lemma ReservedAtStep(xs: seq<Input>, x: Input, a: nat, k: nat)
    ensures var s := CoreAt(xs, |xs|);
      ReservedAt(xs + [x], a, k) <==>
        (if k == |xs| then Reserving(s, x) && s.mem.addr == a else ReservedAt(xs, a, k) && !Reserving(s, x) && !Ending(s, x))
  {
    if k <= |xs| {
      Earlier(xs, x, k);
    }
    if k < |xs| {
      UndisturbedStep(xs, x, k);
    }
  }

  lemma ReservedStep(xs: seq<Input>, x: Input, a: nat)
    ensures var s := CoreAt(xs, |xs|);
      ReservedFor(xs + [x], a) <==> (if Reserving(s, x) then s.mem.addr == a else ReservedFor(xs, a) && !Ending(s, x))
  {
    forall k: nat ensures var s := CoreAt(xs, |xs|);
      ReservedAt(xs + [x], a, k) <==>
        (if k == |xs| then Reserving(s, x) && s.mem.addr == a else ReservedAt(xs, a, k) && !Reserving(s, x) && !Ending(s, x))
    {
      ReservedAtStep(xs, x, a, k);
    }
    var last := ReservedAt(xs + [x], a, |xs|);
  }

  lemma {:induction false} LockedIff(xs: seq<Input>, a: nat)
    ensures Run(RESET, xs).core.locked && Run(RESET, xs).core.reserved == a <==> ReservedFor(xs, a)
    decreases |xs|
  {
    if xs != [] {
      var ws, x := xs[..|xs| - 1], xs[|xs| - 1];
      assert xs == ws + [x] && ws[..|ws|] == ws;
      LockedIff(ws, a);
      MonitorStep(Run(RESET, ws).core, x, a);
      ReservedStep(ws, x, a);
    }
  }

  /** A store-conditional succeeds, over every run from reset, exactly if the last load-reserved was for its address and no
      trap, store-conditional or other store has come since. */
  lemma ConditionalIff(xs: seq<Input>)
    ensures ScSuccess(Run(RESET, xs).core) <==> ReservedFor(xs, Run(RESET, xs).core.mem.addr)
  {
    LockedIff(xs, Run(RESET, xs).core.mem.addr);
  }
}
