/** The second-level interrupt controller: the latch of src/intc.v, cycle by cycle, and the driver
    of zephyr/drivers/interrupt_controller/intc_rv32_5stage.c on top of it.  Bit masks are sets of
    source numbers. */
module Intc {

  type Mask = set<nat>

  // ----- the hardware latch

  /** One clock of the PENDING register as src/intc.v computes it; w1c are the bits written 1. */
  function Latch(pending: Mask, edges: Mask, w1c: Mask): Mask { (pending + edges) - w1c }

  /** What the comments beside it promise: the clear is merged with the same cycle's new edges. */
  function DocumentedLatch(pending: Mask, edges: Mask, w1c: Mask): Mask { (pending - w1c) + edges }

  /** The two agree exactly if no cleared source fires in the cycle of the clear; otherwise the
      register drops that edge. */
  lemma ClearDropsEdges(pending: Mask, edges: Mask, w1c: Mask)
    ensures Latch(pending, edges, w1c) == DocumentedLatch(pending, edges, w1c) <==> edges * w1c == {}
  {
    if edges * w1c == {} {
      assert forall x :: x in edges ==> x !in edges * w1c;
    } else {
      var x :| x in edges * w1c;
      assert x in DocumentedLatch(pending, edges, w1c) && x !in Latch(pending, edges, w1c);
    }
  }

  // ----- the ISR's service loop

  predicate IsLowest(mask: Mask, b: nat) {
    b in mask && forall x :: x in mask ==> b <= x
  }

  lemma {:induction false} FindLowest(mask: Mask) returns (b: nat)
    requires mask != {}
    ensures IsLowest(mask, b)
    decreases mask
  {
    b :| b in mask;
    var rest := mask - {b};
    assert forall x :: x in mask ==> x == b || x in rest;
    if rest != {} {
      var c := FindLowest(rest);
      b := if b <= c then b else c;
    }
  }

  /** find_lsb_set(mask) - 1 */
  function Lowest(mask: Mask): (b: nat)
    requires mask != {}
    ensures b in mask && forall x :: x in mask ==> b <= x
  {
    assert exists b :: IsLowest(mask, b) by { var b := FindLowest(mask); }
    var b :| IsLowest(mask, b);
    b
  }

  /** The while loop of the ISR: it ends, and dispatches every source of the mask exactly once, in
      ascending order. */
  method Service(mask: Mask) returns (order: seq<nat>)
    ensures forall i, j :: 0 <= i < j < |order| ==> order[i] < order[j]
    ensures forall x :: x in order <==> x in mask
  {
    order := [];
    var pending := mask;
    while pending != {}
      invariant pending <= mask
      invariant forall x :: x in mask <==> x in order || x in pending
      invariant forall i, x :: 0 <= i < |order| && x in pending ==> order[i] < x
      invariant forall i, j :: 0 <= i < j < |order| ==> order[i] < order[j]
      decreases pending
    {
      var bit := Lowest(pending);
      pending := pending - {bit};
      order := order + [bit];
    }
  }

  // ----- the whole system, one clock at a time

  /** Thread mode: outside the driver, or inside initialize, intr_enable or intr_disable. */
  datatype ThreadPc =
    | Outside
    | InitDisable(all: Mask)
    | InitClear(all: Mask)
    | EnableRead(irq: nat)
    | EnableClear(irq: nat, seen: Mask)
    | EnableWrite(irq: nat, seen: Mask)
    | DisableRead(irq: nat)
    | DisableWrite(irq: nat, seen: Mask)

  /** Interrupt mode; the ISR suspends the thread wherever it is. */
  datatype IsrPc =
    | NotRunning
    | ReadPending
    | ReadEnable(seen: Mask)
    | ClearPending(mask: Mask)
    | Serving(mask: Mask)

  datatype State = State(
    enable: Mask, pending: Mask, thread: ThreadPc, isr: IsrPc,
    owed: Mask)          // enabled sources that fired since their handler last started

  /** What the CPU does in a cycle. */
  datatype Action =
    | Wait               // no register access: other code, or a child handler running
    | Take               // enter the ISR
    | Isr                // next statement of the ISR
    | Thread             // next statement of the driver call
    | CallEnable(irq: nat) | CallDisable(irq: nat)

  /** irq_out */
  predicate Line(s: State) { s.pending * s.enable != {} }

  /** The CPU's own interrupt input is set up at the end of initialize. */
  predicate Booting(pc: ThreadPc) { pc.InitDisable? || pc.InitClear? }

  /** Which actions are possible.  `masked`: intr_enable is called on masked sources only. */
  predicate Enabled(s: State, a: Action, masked: bool) {
    match a
    case Wait => true
    case Take => s.isr.NotRunning? && Line(s) && !Booting(s.thread)
    case Isr => !s.isr.NotRunning?
    case Thread => s.isr.NotRunning? && !s.thread.Outside?
    case CallEnable(irq) => s.isr.NotRunning? && s.thread.Outside? && (masked ==> irq !in s.enable)
    case CallDisable(irq) => s.isr.NotRunning? && s.thread.Outside?
  }

  /** The bits written to PENDING in this cycle. */
  function Cleared(s: State, a: Action): Mask {
    if a.Isr? && s.isr.ClearPending? then s.isr.mask
    else if a.Thread? && s.thread.EnableClear? then {s.thread.irq}
    else if a.Thread? && s.thread.InitClear? then s.thread.all
    else {}
  }

  function NewEnable(s: State, a: Action): Mask {
    if a.Thread? && s.thread.EnableWrite? then s.thread.seen + {s.thread.irq}
    else if a.Thread? && s.thread.DisableWrite? then s.thread.seen - {s.thread.irq}
    else if a.Thread? && s.thread.InitDisable? then {}
    else s.enable
  }

  /** The handlers started in this cycle. */
  function Started(s: State, a: Action): Mask {
    if a.Isr? && s.isr.Serving? && s.isr.mask != {} then {Lowest(s.isr.mask)} else {}
  }

  function NewIsr(s: State, a: Action): IsrPc {
    match a
    case Take => ReadPending
    case Isr =>
      (match s.isr
       case NotRunning => NotRunning
       case ReadPending => ReadEnable(s.pending)
       case ReadEnable(seen) => ClearPending(seen * s.enable)
       case ClearPending(mask) => Serving(mask)
       case Serving(mask) => if mask == {} then NotRunning else Serving(mask - {Lowest(mask)}))
    case _ => s.isr
  }

  function NewThread(s: State, a: Action): ThreadPc {
    match a
    case CallEnable(irq) => EnableRead(irq)
    case CallDisable(irq) => DisableRead(irq)
    case Thread =>
      (match s.thread
       case Outside => Outside
       case InitDisable(all) => InitClear(all)
       case InitClear(_) => Outside
       case EnableRead(irq) => EnableClear(irq, s.enable)
       case EnableClear(irq, seen) => EnableWrite(irq, seen)
       case EnableWrite(_, _) => Outside
       case DisableRead(irq) => DisableWrite(irq, s.enable)
       case DisableWrite(_, _) => Outside)
    case _ => s.thread
  }

  /** One clock: edges latch whatever the CPU does. */
  function Clock(s: State, edges: Mask, a: Action): State {
    State(NewEnable(s, a),
          Latch(s.pending, edges, Cleared(s, a)),
          NewThread(s, a),
          NewIsr(s, a),
          ((s.owed - Started(s, a)) + edges * s.enable) * NewEnable(s, a))
  }

  /** The mask the running ISR still has to serve. */
  function InHand(isr: IsrPc): Mask {
    match isr
    case ClearPending(mask) => mask
    case Serving(mask) => mask
    case _ => {}
  }

  ghost predicate Inv(s: State) {
    && (Booting(s.thread) ==> s.isr.NotRunning?) && (s.thread.InitClear? ==> s.enable == {})
    && (s.thread.EnableRead? ==> s.thread.irq !in s.enable)
    && (s.thread.EnableClear? || s.thread.EnableWrite? ==> s.thread.irq !in s.enable && s.thread.seen == s.enable)
    && (s.thread.DisableWrite? ==> s.thread.seen == s.enable)
    && InHand(s.isr) <= s.enable && s.owed <= s.enable
    && s.owed <= s.pending + InHand(s.isr)
  }

  /** Before initialize: whatever is enabled and pending. */
  predicate Boot(s: State) { s.thread.InitDisable? && s.isr.NotRunning? && s.owed == {} }

  lemma ClockInv(s: State, edges: Mask, a: Action)
    requires Inv(s) && Enabled(s, a, true)
    ensures Inv(Clock(s, edges, a))
  {
  }

  // ----- what follows for every run

  datatype Input = Input(edges: Mask, action: Action)

  ghost predicate IsRun(states: seq<State>, inputs: seq<Input>, masked: bool) {
    && |states| == |inputs| + 1 && Boot(states[0])
    && forall i :: 0 <= i < |inputs| ==>
         Enabled(states[i], inputs[i].action, masked) && states[i + 1] == Clock(states[i], inputs[i].edges, inputs[i].action)
  }

  lemma {:induction false} RunInv(states: seq<State>, inputs: seq<Input>, i: nat)
    requires IsRun(states, inputs, true) && i < |states|
    ensures Inv(states[i])
  {
    if i > 0 {
      RunInv(states, inputs, i - 1);
      ClockInv(states[i - 1], inputs[i - 1].edges, inputs[i - 1].action);
    }
  }

  /** initialize: whatever was enabled and pending before, its last write leaves nothing enabled, nothing
      owed, and no source of the controller pending. */
  lemma InitClears(states: seq<State>, inputs: seq<Input>, i: nat)
    requires IsRun(states, inputs, true) && i < |inputs| && states[i].thread.InitClear? && inputs[i].action == Thread
    ensures var s := states[i + 1];
      s.thread.Outside? && s.enable == {} && s.owed == {} && forall x :: x in states[i].thread.all ==> x !in s.pending
  {
    RunInv(states, inputs, i);
    assert states[i + 1] == Clock(states[i], inputs[i].edges, inputs[i].action);
  }

  lemma {:induction false} StillOwed(states: seq<State>, inputs: seq<Input>, i: nat, j: nat, x: nat)
    requires IsRun(states, inputs, true) && i < j < |states|
    requires x in inputs[i].edges && x in states[i].enable
    requires forall k :: i < k <= j ==> x in states[k].enable
    requires forall k :: i < k < j ==> x !in Started(states[k], inputs[k].action)
    ensures x in states[j].owed
  {
    if j > i + 1 {
      StillOwed(states, inputs, i, j - 1, x);
      assert states[j] == Clock(states[j - 1], inputs[j - 1].edges, inputs[j - 1].action);
    } else {
      assert states[j] == Clock(states[i], inputs[i].edges, inputs[i].action);
    }
  }

  /** No edge on an enabled source is lost: until its handler starts, it is latched in PENDING, with
      the interrupt line up, or in the hand of the running ISR. */
  lemma EdgeKept(states: seq<State>, inputs: seq<Input>, i: nat, j: nat, x: nat)
    requires IsRun(states, inputs, true) && i < j < |states|
    requires x in inputs[i].edges && x in states[i].enable
    requires forall k :: i < k <= j ==> x in states[k].enable
    requires forall k :: i < k < j ==> x !in Started(states[k], inputs[k].action)
    ensures x in InHand(states[j].isr) || (x in states[j].pending && Line(states[j]))
  {
    StillOwed(states, inputs, i, j, x);
    RunInv(states, inputs, j);
    assert x in states[j].pending ==> x in states[j].pending * states[j].enable;
  }

  /** intr_enable, from its clear to its unmasking: PENDING holds the source exactly if it fired
      strictly after the cycle of the clear.  An edge in that very cycle is dropped. */
  lemma {:induction false} EnableKeepsLaterEdges(states: seq<State>, inputs: seq<Input>, i: nat, j: nat, irq: nat)
    requires IsRun(states, inputs, true) && i < j < |states|
    requires states[i].thread.EnableClear? && states[i].thread.irq == irq && inputs[i].action == Thread
    requires forall k :: i < k <= j ==> states[k].thread.EnableWrite?
    ensures states[j].thread.irq == irq
    ensures irq in states[j].pending <==> exists k :: i < k < j && irq in inputs[k].edges
  {
    RunInv(states, inputs, i);
    if j == i + 1 {
      assert states[j] == Clock(states[i], inputs[i].edges, inputs[i].action);
    } else {
      EnableKeepsLaterEdges(states, inputs, i, j - 1, irq);
      RunInv(states, inputs, j - 1);
      var s, e := states[j - 1], inputs[j - 1].edges;
      assert states[j] == Clock(s, e, inputs[j - 1].action);
      assert irq !in Cleared(s, inputs[j - 1].action);
      assert irq in states[j].pending <==> irq in s.pending || irq in e;
    }
  }

  // ----- why only masked sources may be enabled

  /** An enabled source whose handler still has to run. */
  predicate Due(s: State, x: nat) { x in s.enable && (x in s.pending || x in InHand(s.isr)) }

  /** This clock loses an edge of x: it was due, or fired now, no handler starts and x stays enabled, and
      yet it is no longer due. */
  predicate Loses(s: State, edges: Mask, a: Action, x: nat) {
    && (Due(s, x) || (x in s.enable && x in edges))
    && x !in Started(s, a) && x in NewEnable(s, a) && !Due(Clock(s, edges, a), x)
  }

  /** The only way to lose an edge after boot, in any state whatever: the clear of an intr_enable on a source that is
      enabled already, pending or firing, and not in the ISR's hand. */
  lemma LosesIff(s: State, edges: Mask, a: Action, x: nat)
    requires Enabled(s, a, false)
    ensures Loses(s, edges, a, x) && !Booting(s.thread) <==>
      && a.Thread? && s.thread.EnableClear? && s.thread.irq == x && x in s.enable
      && (x in s.pending || x in edges) && x !in InHand(s.isr)
  {
  }

  /** With masked sources only, no clock of any run loses an edge. */
  lemma NothingLost(states: seq<State>, inputs: seq<Input>, i: nat, x: nat)
    requires IsRun(states, inputs, true) && i < |inputs|
    ensures !Loses(states[i], inputs[i].edges, inputs[i].action, x)
  {
    RunInv(states, inputs, i);
    LosesIff(states[i], inputs[i].edges, inputs[i].action, x);
  }

  lemma Extend(states: seq<State>, inputs: seq<Input>, x: Input) returns (states': seq<State>, inputs': seq<Input>)
    requires IsRun(states, inputs, false) && Enabled(states[|inputs|], x.action, false)
    ensures IsRun(states', inputs', false) && |inputs'| == |inputs| + 1 && inputs'[|inputs|] == x
    ensures states'[|inputs|] == states[|inputs|] && states'[|inputs| + 1] == Clock(states[|inputs|], x.edges, x.action)
  {
    states', inputs' := states + [Clock(states[|inputs|], x.edges, x.action)], inputs + [x];
  }

  /** Boot and a first enable of source 0. */
  lemma FirstEnable() returns (states: seq<State>, inputs: seq<Input>)
    ensures IsRun(states, inputs, false) && states[|inputs|] == State({0}, {}, Outside, NotRunning, {})
  {
    states, inputs := [State({}, {}, InitDisable({0}), NotRunning, {})], [];
    states, inputs := Extend(states, inputs, Input({}, Thread));
    states, inputs := Extend(states, inputs, Input({}, Thread));
    assert states[|inputs|] == State({}, {}, Outside, NotRunning, {});
    states, inputs := Extend(states, inputs, Input({}, CallEnable(0)));
    states, inputs := Extend(states, inputs, Input({}, Thread));
    states, inputs := Extend(states, inputs, Input({}, Thread));
    states, inputs := Extend(states, inputs, Input({}, Thread));
  }

  /** Without that rule there is a run that loses an edge: source 0 is enabled, fires, and is enabled again
      before its interrupt is taken. */
  lemma ReenableLosesEdge() returns (states: seq<State>, inputs: seq<Input>)
    ensures IsRun(states, inputs, false) && inputs != []
    ensures var n := |inputs| - 1; Loses(states[n], inputs[n].edges, inputs[n].action, 0)
  {
    states, inputs := FirstEnable();
    states, inputs := Extend(states, inputs, Input({0}, CallEnable(0)));
    states, inputs := Extend(states, inputs, Input({}, Thread));
    var s := states[|inputs|];
    assert s.thread == EnableClear(0, {0}) && s.enable == {0} && s.pending == {0} && s.isr.NotRunning?;
    LosesIff(s, {}, Thread, 0);
    states, inputs := Extend(states, inputs, Input({}, Thread));
  }

  // ----- the driver's own routines

  /** The registers; `edges` is the schedule of rising edges, one set per clock, `gap` the number of clocks
      other code takes before the k-th register access of the driver, and `serves` what an ISR running in
      such a clock clears (of the enabled sources). */
  class Registers {
    const edges: nat -> Mask
    const gap: nat -> nat
    const serves: nat -> Mask
    var enable: Mask
    var pending: Mask
    var now: nat
    var accesses: nat

    constructor (edges: nat -> Mask, gap: nat -> nat, serves: nat -> Mask, enable: Mask, pending: Mask)
      ensures this.edges == edges && this.gap == gap && this.serves == serves
      ensures this.enable == enable && this.pending == pending && now == 0
    {
      this.edges, this.gap, this.serves := edges, gap, serves;
      this.enable, this.pending, now, accesses := enable, pending, 0, 0;
    }

    /** x fired in some clock from a to b. */
    ghost predicate Fired(x: nat, a: nat, b: nat) { exists k :: a <= k < b && x in edges(k) }

    /** x fired in some clock from a to b and no ISR cleared it from then on. */
    ghost predicate FiredLast(x: nat, a: nat, b: nat) {
      exists k :: a <= k < b && x in edges(k) && forall m :: k <= m < b ==> x !in serves(m)
    }

    method Tick(w1c: Mask)
      modifies this`pending, this`now
      ensures now == old(now) + 1 && pending == Latch(old(pending), edges(old(now)), w1c)
    {
      pending := Latch(pending, edges(now), w1c);
      now := now + 1;
    }

    /** Clocks without a register access of the driver: a masked source only collects edges, and an enabled
        one loses none but to an ISR that serves it. */
    method Pass()
      modifies this`pending, this`now, this`accesses
      ensures now >= old(now)
      ensures forall x :: x !in enable ==> (x in pending <==> x in old(pending) || Fired(x, old(now), now))
      ensures forall x :: x in pending ==> x in old(pending) || Fired(x, old(now), now)
      ensures forall x :: FiredLast(x, old(now), now) ==> x in pending
      ensures forall x :: x in old(pending) && (forall m :: old(now) <= m < now ==> x !in serves(m)) ==> x in pending
    {
      var n := gap(accesses);
      accesses := accesses + 1;
      while n > 0
        invariant now >= old(now)
        invariant forall x :: x !in enable ==> (x in pending <==> x in old(pending) || Fired(x, old(now), now))
        invariant forall x :: x in pending ==> x in old(pending) || Fired(x, old(now), now)
        invariant forall x :: FiredLast(x, old(now), now) ==> x in pending
        invariant forall x :: x in old(pending) && (forall m :: old(now) <= m < now ==> x !in serves(m)) ==> x in pending
      {
        Tick(serves(now) * enable);
        n := n - 1;
      }
    }

    /** rv32_5stage_intc_initialize, before the CPU takes interrupts: any PENDING is cleared. */
    method Initialize(all: Mask) returns (ghost cleared: nat)
      modifies this
      ensures enable == {} && old(now) <= cleared < now
      ensures forall x :: x in all ==> (x in pending <==> Fired(x, cleared + 1, now))
    {
      Pass();
      enable := {};
      Tick({});
      Pass();
      cleared := now;
      Tick(all);
      Pass();
    }

    /** rv32_5stage_intc_intr_enable, ISR runs included: a masked source is pending afterwards exactly if it
        fired after the clear, and one that was enabled already only if it did. */
    method IntrEnable(irq: nat) returns (ghost cleared: nat)
      modifies this
      ensures enable == old(enable) + {irq} && old(now) <= cleared < now
      ensures irq !in old(enable) ==> (irq in pending <==> Fired(irq, cleared + 1, now))
      ensures irq in pending ==> Fired(irq, cleared + 1, now)
      ensures FiredLast(irq, cleared + 1, now) ==> irq in pending
      ensures forall x :: x !in enable ==> (x in pending <==> x in old(pending) || Fired(x, old(now), now))
      ensures forall x :: x != irq && FiredLast(x, old(now), now) ==> x in pending
    {
      Pass();
      var seen := enable;
      Tick({});
      cleared := ClearSource(irq);
      Pass();
      Tick({});
      enable := seen + {irq};
    }

    /** Other code, and then the clear of one source. */
    method ClearSource(irq: nat) returns (ghost cleared: nat)
      modifies this`pending, this`now, this`accesses
      ensures old(now) <= cleared && now == cleared + 1 && irq !in pending
      ensures forall x :: x != irq && x !in enable ==> (x in pending <==> x in old(pending) || Fired(x, old(now), now))
      ensures forall x :: x != irq && FiredLast(x, old(now), now) ==> x in pending
      ensures forall x :: x != irq && x in old(pending) && (forall m :: old(now) <= m < now ==> x !in serves(m)) ==> x in pending
    {
      Pass();
      cleared := now;
      Tick({irq});
    }

    /** rv32_5stage_intc_intr_disable */
    method IntrDisable(irq: nat)
      modifies this
      ensures enable == old(enable) - {irq}
      ensures forall x :: x !in old(enable) ==> (x in pending <==> x in old(pending) || Fired(x, old(now), now))
      ensures forall x :: FiredLast(x, old(now), now) ==> x in pending
    {
      Pass();
      var seen := enable;
      Tick({});
      Pass();
      Tick({});
      enable := seen - {irq};
    }
  }
}
