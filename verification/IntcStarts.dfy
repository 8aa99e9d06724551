/** The other half of the interrupt controller's promise: a handler starts only for a source that fired and
    was enabled, and never more often than it fired; and a call of the driver has the effect on ENABLE it was made for
    (src/intc.v and zephyr/drivers/interrupt_controller/intc_rv32_5stage.c). */
module IntcStarts {
  import opened Intc

  // ----- what PENDING holds

  /** x is not cleared in the clocks from k to i. */
  ghost predicate Uncleared(states: seq<State>, inputs: seq<Input>, x: nat, k: nat, i: nat)
    requires i <= |inputs| <= |states|
  {
    forall m :: k <= m < i ==> x !in Cleared(states[m], inputs[m].action)
  }

  /** x was pending at boot, or fired in a clock before i, and has not been cleared since; a clear in the clock
      of the edge counts. */
  ghost predicate Latched(states: seq<State>, inputs: seq<Input>, x: nat, i: nat)
    requires i <= |inputs| < |states|
  {
    || (x in states[0].pending && Uncleared(states, inputs, x, 0, i))
    || exists k :: 0 <= k < i && x in inputs[k].edges && Uncleared(states, inputs, x, k, i)
  }

  lemma LatchedStep(states: seq<State>, inputs: seq<Input>, x: nat, i: nat)
    requires i < |inputs| < |states|
    ensures Latched(states, inputs, x, i + 1) <==>
      (Latched(states, inputs, x, i) || x in inputs[i].edges) && x !in Cleared(states[i], inputs[i].action)
  {
    if Latched(states, inputs, x, i + 1) && x !in inputs[i].edges {
      if !(x in states[0].pending && Uncleared(states, inputs, x, 0, i + 1)) {
        var k :| 0 <= k < i + 1 && x in inputs[k].edges && Uncleared(states, inputs, x, k, i + 1);
        assert Uncleared(states, inputs, x, k, i);
      }
    }
    if x !in Cleared(states[i], inputs[i].action) {
      if x in inputs[i].edges {
        assert Uncleared(states, inputs, x, i, i + 1);
      } else if Latched(states, inputs, x, i) && !(x in states[0].pending && Uncleared(states, inputs, x, 0, i)) {
        var k :| 0 <= k < i && x in inputs[k].edges && Uncleared(states, inputs, x, k, i);
        assert Uncleared(states, inputs, x, k, i + 1);
      }
    }
  }

  /** In every state of every run PENDING holds exactly the sources with an edge that has not been cleared. */
  lemma {:induction false} PendingIff(states: seq<State>, inputs: seq<Input>, masked: bool, x: nat, i: nat)
    requires IsRun(states, inputs, masked) && i < |states|
    ensures x in states[i].pending <==> Latched(states, inputs, x, i)
  {
    if i > 0 {
      PendingIff(states, inputs, masked, x, i - 1);
      LatchedStep(states, inputs, x, i - 1);
      assert states[i] == Clock(states[i - 1], inputs[i - 1].edges, inputs[i - 1].action);
    }
  }

  // ----- what the ISR has in hand

  /** The ISR has read PENDING; what it has kept of it. */
  predicate HasRead(isr: IsrPc) { isr.ReadEnable? || isr.ClearPending? || isr.Serving? }

  function Kept(isr: IsrPc): Mask {
    match isr
    case ReadEnable(seen) => seen
    case ClearPending(mask) => mask
    case Serving(mask) => mask
    case _ => {}
  }

  /** What has been read is still pending until it is cleared, and what is in hand is enabled. */
  ghost predicate IsrInv(s: State) {
    (s.isr.ReadEnable? || s.isr.ClearPending? ==> Kept(s.isr) <= s.pending) && InHand(s.isr) <= s.enable
  }

  lemma ClockIsrInv(s: State, edges: Mask, a: Action, masked: bool)
    requires IsrInv(s) && Enabled(s, a, masked)
    ensures IsrInv(Clock(s, edges, a))
  {
  }

  lemma {:induction false} RunIsrInv(states: seq<State>, inputs: seq<Input>, masked: bool, i: nat)
    requires IsRun(states, inputs, masked) && i < |states|
    ensures IsrInv(states[i])
  {
    if i > 0 {
      RunIsrInv(states, inputs, masked, i - 1);
      ClockIsrInv(states[i - 1], inputs[i - 1].edges, inputs[i - 1].action, masked);
    }
  }

  /** Whatever an ISR holds it read from PENDING, in a clock since which it has been running. */
  lemma {:induction false} ReadFromPending(states: seq<State>, inputs: seq<Input>, masked: bool, j: nat) returns (r: nat)
    requires IsRun(states, inputs, masked) && j < |states| && HasRead(states[j].isr)
    ensures r < j && states[r].isr.ReadPending? && inputs[r].action.Isr?
    ensures Kept(states[j].isr) <= states[r].pending && forall m :: r < m <= j ==> HasRead(states[m].isr)
  {
    assert j > 0;
    var s, a := states[j - 1], inputs[j - 1].action;
    assert Enabled(s, a, masked) && states[j] == Clock(s, inputs[j - 1].edges, a);
    if s.isr.ReadPending? {
      r := j - 1;
    } else {
      r := ReadFromPending(states, inputs, masked, j - 1);
    }
  }

  /** A handler starts only for a source that is enabled and that its ISR read in PENDING: one that fired, or was
      pending at boot, before the clock of that read and was not cleared in between. */
  lemma StartedFired(states: seq<State>, inputs: seq<Input>, masked: bool, j: nat, x: nat) returns (r: nat)
    requires IsRun(states, inputs, masked) && j < |inputs| && x in Started(states[j], inputs[j].action)
    ensures x in states[j].enable
    ensures r < j && states[r].isr.ReadPending? && inputs[r].action.Isr? && forall m :: r < m <= j ==> HasRead(states[m].isr)
    ensures Latched(states, inputs, x, r)
  {
    r := ReadFromPending(states, inputs, masked, j);
    RunIsrInv(states, inputs, masked, j);
    PendingIff(states, inputs, masked, x, r);
  }

  // ----- counting

  /** How often x fired in the clocks from i to j. */
  function Fires(inputs: seq<Input>, x: nat, i: nat, j: nat): nat
    requires i <= j <= |inputs|
  {
    if i == j then 0 else Fires(inputs, x, i, j - 1) + if x in inputs[j - 1].edges then 1 else 0
  }

  /** How often its handler was started in those clocks. */
  function Starts(states: seq<State>, inputs: seq<Input>, x: nat, i: nat, j: nat): nat
    requires i <= j <= |inputs| <= |states|
  {
    if i == j then 0
    else Starts(states, inputs, x, i, j - 1) + if x in Started(states[j - 1], inputs[j - 1].action) then 1 else 0
  }

  /** Handler starts that edges seen so far still have to come: one in hand, and one in PENDING unless the ISR is
      about to clear it. */
  function Outstanding(s: State, x: nat): nat {
    (if x in InHand(s.isr) then 1 else 0) + if x in s.pending && !(s.isr.ClearPending? && x in s.isr.mask) then 1 else 0
  }

  lemma OutstandingStep(s: State, edges: Mask, a: Action, x: nat, masked: bool)
    requires IsrInv(s) && Enabled(s, a, masked)
    ensures Outstanding(Clock(s, edges, a), x) + (if x in Started(s, a) then 1 else 0)
         <= Outstanding(s, x) + if x in edges then 1 else 0
  {
  }

  /** In any stretch of any run, the starts and what is outstanding at its end are paid for by the edges in it and
      what was outstanding at its beginning. */
  lemma {:induction false} StartsPaid(states: seq<State>, inputs: seq<Input>, masked: bool, x: nat, i: nat, j: nat)
    requires IsRun(states, inputs, masked) && i <= j <= |inputs|
    ensures Starts(states, inputs, x, i, j) + Outstanding(states[j], x) <= Fires(inputs, x, i, j) + Outstanding(states[i], x)
  {
    if i < j {
      StartsPaid(states, inputs, masked, x, i, j - 1);
      RunIsrInv(states, inputs, masked, j - 1);
      OutstandingStep(states[j - 1], inputs[j - 1].edges, inputs[j - 1].action, x, masked);
    }
  }

  /** A handler is never started more often than its source fired, an edge left over from before boot included. */
  lemma NeverMoreOften(states: seq<State>, inputs: seq<Input>, masked: bool, x: nat, j: nat)
    requires IsRun(states, inputs, masked) && j <= |inputs|
    ensures Starts(states, inputs, x, 0, j) <= Fires(inputs, x, 0, j) + if x in states[0].pending then 1 else 0
  {
    StartsPaid(states, inputs, masked, x, 0, j);
  }

  // ----- what a call does to ENABLE

  /** The thread is inside intr_enable (on) or intr_disable of source x. */
  predicate InCall(pc: ThreadPc, on: bool, x: nat) {
    if on then (pc.EnableRead? || pc.EnableClear? || pc.EnableWrite?) && pc.irq == x
    else (pc.DisableRead? || pc.DisableWrite?) && pc.irq == x
  }

  lemma CallStep(s: State, edges: Mask, a: Action, on: bool, x: nat, y: nat)
    requires Inv(s) && Enabled(s, a, true) && InCall(s.thread, on, x)
    ensures var n := Clock(s, edges, a);
      && (InCall(n.thread, on, x) || (n.thread.Outside? && (x in n.enable <==> on)))
      && (x != y ==> (y in n.enable <==> y in s.enable))
  {
  }

  /** From the clock of a call to the one in which the thread is outside again it is in that call; then the source is
      enabled or disabled as asked, and no other source has changed. */
  lemma {:induction false} CallTakesEffect(states: seq<State>, inputs: seq<Input>, c: nat, j: nat, on: bool, x: nat, y: nat)
    requires IsRun(states, inputs, true) && c < j < |states|
    requires inputs[c].action == if on then CallEnable(x) else CallDisable(x)
    requires forall k :: c < k < j ==> !states[k].thread.Outside?
    ensures InCall(states[j].thread, on, x) || (states[j].thread.Outside? && (x in states[j].enable <==> on))
    ensures x != y ==> (y in states[j].enable <==> y in states[c].enable)
  {
    RunInv(states, inputs, j - 1);
    var s, e, a := states[j - 1], inputs[j - 1].edges, inputs[j - 1].action;
    assert Enabled(s, a, true) && states[j] == Clock(s, e, a);
    if j > c + 1 {
      CallTakesEffect(states, inputs, c, j - 1, on, x, y);
      CallStep(s, e, a, on, x, y);
    }
  }
}
