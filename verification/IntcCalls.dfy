/** Several threads in intr_enable and intr_disable at once: the read and the write of ENABLE are two bus
    accesses with no lock around them (zephyr/drivers/interrupt_controller/intc_rv32_5stage.c). */
module IntcCalls {

  type Mask = set<nat>

  /** Where a thread stands: outside, before the read, or between read and write with what it has read. */
  datatype Call = Outside | Reading(irq: nat, on: bool) | Writing(irq: nat, on: bool, seen: Mask)

  datatype State = State(enable: Mask, calls: seq<Call>)

  /** A thread begins a call, or takes the next register access of the one it is in. */
  datatype Label = Begin(t: nat, irq: nat, on: bool) | Access(t: nat)

  predicate Enabled(s: State, l: Label) {
    l.t < |s.calls| && (l.Begin? <==> s.calls[l.t].Outside?)
  }

  /** ENABLE with one bit set or cleared. */
  function With(enable: Mask, irq: nat, on: bool): Mask { if on then enable + {irq} else enable - {irq} }

  function Do(s: State, l: Label): State
    requires Enabled(s, l)
  {
    match l
    case Begin(t, irq, on) => s.(calls := s.calls[t := Reading(irq, on)])
    case Access(t) =>
      match s.calls[t]
      case Reading(irq, on) => s.(calls := s.calls[t := Writing(irq, on, s.enable)])
      case Writing(irq, on, seen) => State(With(seen, irq, on), s.calls[t := Outside])
  }

  ghost predicate IsRun(states: seq<State>, labels: seq<Label>) {
    && |states| == |labels| + 1
    && (forall t :: 0 <= t < |states[0].calls| ==> states[0].calls[t].Outside?)
    && forall i :: 0 <= i < |labels| ==> Enabled(states[i], labels[i]) && states[i + 1] == Do(states[i], labels[i])
  }

  /** Between its accesses a thread's place does not change. */
  lemma {:induction false} StaysPut(states: seq<State>, labels: seq<Label>, i: nat, j: nat, t: nat)
    requires IsRun(states, labels) && i <= j < |states| && t < |states[i].calls|
    requires forall k :: i <= k < j ==> labels[k].t != t
    ensures |states[j].calls| == |states[i].calls| && states[j].calls[t] == states[i].calls[t]
    decreases j - i
  {
    if i < j {
      StaysPut(states, labels, i, j - 1, t);
      assert Enabled(states[j - 1], labels[j - 1]) && states[j] == Do(states[j - 1], labels[j - 1]);
    }
  }

  /** A call that reads in step i and writes in step j, over every run: the write sets its own bit as asked,
      and it undoes what happened to another source exactly if that source's bit changed in between. */
  lemma WriteUndoesIff(states: seq<State>, labels: seq<Label>, i: nat, j: nat, x: nat)
    requires IsRun(states, labels) && i < j < |labels| && labels[i].Access? && labels[j] == labels[i]
    requires states[i].calls[labels[i].t].Reading? && forall k :: i < k < j ==> labels[k].t != labels[i].t
    ensures var c := states[i].calls[labels[i].t];
      && (c.irq in states[j + 1].enable <==> c.on)
      && (x != c.irq ==> ((x in states[j + 1].enable) != (x in states[j].enable) <==>
                          (x in states[j].enable) != (x in states[i].enable)))
  {
    var t := labels[i].t;
    assert states[i + 1] == Do(states[i], labels[i]);
    StaysPut(states, labels, i + 1, j, t);
    assert states[j + 1] == Do(states[j], labels[j]);
  }

  // ----- calls that do not overlap

  /** At most one thread is inside a call. */
  ghost predicate Alone(s: State) {
    forall t, u :: 0 <= t < u < |s.calls| ==> s.calls[t].Outside? || s.calls[u].Outside?
  }

  /** What a thread has read is still what ENABLE holds. */
  ghost predicate Fresh(s: State) {
    forall t :: 0 <= t < |s.calls| && s.calls[t].Writing? ==> s.calls[t].seen == s.enable
  }

  lemma {:induction false} AloneFresh(states: seq<State>, labels: seq<Label>, i: nat)
    requires IsRun(states, labels) && i < |states| && forall k :: 0 <= k < |states| ==> Alone(states[k])
    ensures Fresh(states[i])
  {
    if i > 0 {
      AloneFresh(states, labels, i - 1);
      var s, l := states[i - 1], labels[i - 1];
      assert Enabled(s, l) && states[i] == Do(s, l);
      assert Alone(s);
    }
  }

  /** Without overlap every access leaves the bits of all other sources alone. */
  lemma AloneKeeps(states: seq<State>, labels: seq<Label>, i: nat, x: nat)
    requires IsRun(states, labels) && i < |labels| && forall k :: 0 <= k < |states| ==> Alone(states[k])
    requires labels[i].Access? ==> states[i].calls[labels[i].t].irq != x
    ensures x in states[i + 1].enable <==> x in states[i].enable
  {
    AloneFresh(states, labels, i);
    assert states[i + 1] == Do(states[i], labels[i]);
  }

  // ----- calls that do

  lemma Extend(states: seq<State>, labels: seq<Label>, l: Label, s: State) returns (states': seq<State>, labels': seq<Label>)
    requires IsRun(states, labels) && Enabled(states[|labels|], l) && s == Do(states[|labels|], l)
    ensures IsRun(states', labels') && labels' == labels + [l] && states' == states + [s]
  {
    states', labels' := states + [s], labels + [l];
  }

  /** Both threads have read ENABLE ... */
  lemma BothRead() returns (states: seq<State>, labels: seq<Label>)
    ensures IsRun(states, labels) && states[|labels|] == State({}, [Writing(0, true, {}), Writing(1, true, {})])
  {
    states, labels := [State({}, [Outside, Outside])], [];
    states, labels := Extend(states, labels, Begin(0, 0, true), State({}, [Reading(0, true), Outside]));
    states, labels := Extend(states, labels, Begin(1, 1, true), State({}, [Reading(0, true), Reading(1, true)]));
    states, labels := Extend(states, labels, Access(0), State({}, [Writing(0, true, {}), Reading(1, true)]));
    states, labels := Extend(states, labels, Access(1), State({}, [Writing(0, true, {}), Writing(1, true, {})]));
  }

  /** ... and then the overlap loses an enable: both calls have returned, and yet source 0 is masked. */
  lemma OverlapLosesEnable() returns (states: seq<State>, labels: seq<Label>)
    ensures IsRun(states, labels) && states[|labels|] == State({1}, [Outside, Outside])
    ensures exists i :: 0 <= i < |labels| && states[i + 1].enable == {0} && labels[i] == Access(0)
  {
    states, labels := BothRead();
    var n := |labels|;
    states, labels := Extend(states, labels, Access(0), State({0}, [Outside, Writing(1, true, {})]));
    assert states[n + 1].enable == {0} && labels[n] == Access(0);
    states, labels := Extend(states, labels, Access(1), State({1}, [Outside, Outside]));
    assert states[n + 1].enable == {0} && labels[n] == Access(0);
  }
}
