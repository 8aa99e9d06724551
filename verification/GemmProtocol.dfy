/** The control side of the GEMM driver (zephyr/drivers/misc/gemm_rv32_5stage.c) against the
    accelerator's descriptor queue (chisel/src/MmAccel.scala): threads, mutex, semaphore, the
    completion interrupt and the hardware, interleaved statement by statement. */
module GemmProtocol {

  /** Where a thread stands in gemm_run_batch or gemm_set_poll_mode: the statement it will do next. */
  datatype Pc =
    | Idle
    | Check(n: nat, strided: bool) // the argument checks and n_tiles > rd(QUEUE_FREE), outside the lock
    | Refuse(rc: int)             // return of a call that failed a check
    | Lock(n: nat)                // k_mutex_lock
    | Push(n: nat, i: nat)        // DESC_PUSH of tile i, or on to the semaphore when i == n
    | ResetSem(n: nat)            // k_sem_reset
    | ClearFired(n: nat)          // isr_fired = false
    | Kick(n: nat)                // CTRL = START_QUEUE
    | Wait(id: nat)               // poll_mode ?
    | Poll(id: nat)               // while (!(STATUS & QUEUE_DONE))
    | Take(id: nat)               // k_sem_take
    | Abort(id: nat)              // CTRL = SOFT_RST
    | Collect(id: nat)            // displace the destinations
    | Unlock(rc: int)
    | LockMode(poll: bool)        // gemm_set_poll_mode
    | SetMode(poll: bool)

  predicate Holds(pc: Pc) { !pc.Idle? && !pc.Check? && !pc.Refuse? && !pc.Lock? && !pc.LockMode? }

  /** Between the kick and the verdict. */
  predicate InFlight(pc: Pc) { pc.Wait? || pc.Poll? || pc.Take? || pc.Abort? }

  datatype State = State(
    depth: nat,           // slots of the descriptor queue
    threads: seq<Pc>,
    owner: int,           // thread holding the mutex, or -1
    sem: nat,             // k_sem, limit 1
    pollMode: bool,
    isrFired: bool,
    latched: bool,        // completion edge latched in the interrupt controller
    hw: Accelerator)

  datatype Accelerator = Accelerator(
    queue: nat,           // descriptors in the queue
    overflow: bool,       // a DESC_PUSH was dropped
    busy: bool,           // qBusy
    done: bool,           // qDone
    current: nat,         // the batch last kicked
    finished: set<nat>)   // batches the hardware completed

  const EINVAL := -22
  const EBUSY := -16
  const ETIMEDOUT := -116

  datatype Label =
    | Call(t: nat, n: nat, strided: bool) | CallMode(t: nat, poll: bool)
    | Thread(t: nat) | TimeOut(t: nat)
    | Dequeue | Complete | Interrupt

  function At(s: State, t: nat, pc: Pc): State
    requires t < |s.threads|
  {
    s.(threads := s.threads[t := pc])
  }

  /** A thread blocked in k_mutex_lock, k_sem_take or the poll loop cannot take its next statement. */
  predicate CanMove(s: State, t: nat)
    requires t < |s.threads|
  {
    match s.threads[t]
    case Idle => false
    case Lock(_) => s.owner == -1
    case LockMode(_) => s.owner == -1
    case Poll(_) => s.hw.done
    case Take(_) => s.sem > 0
    case _ => true
  }

  /** The statement thread t does after its next one. */
  function Goto(s: State, t: nat): Pc
    requires t < |s.threads| && CanMove(s, t)
  {
    match s.threads[t]
    case Check(n, strided) =>
      if n == 0 then Refuse(EINVAL) else if n > s.depth - s.hw.queue then Refuse(EBUSY) else if strided then Refuse(EINVAL) else Lock(n)
    case Refuse(_) => Idle
    case Lock(n) => Push(n, 0)
    case Push(n, i) => if i == n then ResetSem(n) else Push(n, i + 1)
    case ResetSem(n) => ClearFired(n)
    case ClearFired(n) => Kick(n)
    case Kick(n) => Wait(s.hw.current + 1)
    case Wait(id) => if s.pollMode then Poll(id) else Take(id)
    case Poll(id) => Collect(id)
    case Take(id) => Collect(id)
    case Abort(id) => Unlock(ETIMEDOUT)
    case Collect(id) => Unlock(0)
    case Unlock(_) => Idle
    case LockMode(b) => SetMode(b)
    case SetMode(b) => Unlock(0)
  }

  /** What the next statement of thread t does to the shared state. */
  function Effect(s: State, t: nat): State
    requires t < |s.threads| && CanMove(s, t)
  {
    match s.threads[t]
    case Lock(_) => s.(owner := t)
    case Push(n, i) =>
      if i == n then s else if s.hw.queue < s.depth then s.(hw := s.hw.(queue := s.hw.queue + 1)) else s.(hw := s.hw.(overflow := true))
    case ResetSem(_) => s.(sem := 0)
    case ClearFired(_) => s.(isrFired := false)
    case Kick(_) =>
      // the hardware ignores a kick while it is busy
      if s.hw.busy then s else s.(hw := s.hw.(busy := true, done := false, current := s.hw.current + 1))
    case Take(_) => s.(sem := s.sem - 1)
    case Abort(_) => s.(hw := s.hw.(busy := false, done := false, queue := 0, overflow := false))
    case Unlock(_) => s.(owner := -1)
    case LockMode(_) => s.(owner := t)
    case SetMode(b) => s.(pollMode := b)
    case _ => s
  }

  /** The next statement of thread t. */
  function Move(s: State, t: nat): State
    requires t < |s.threads| && CanMove(s, t)
  {
    Effect(s, t).(threads := s.threads[t := Goto(s, t)])
  }

  /** Which steps are possible.  `prompt`: a latched interrupt runs before the next driver statement
      of any thread.  A timeout is a timer event, so it can fire while the edge is latched. */
  predicate Enabled(s: State, l: Label, prompt: bool) {
    match l
    case Call(t, n, _) => t < |s.threads| && s.threads[t].Idle?
    case CallMode(t, b) => t < |s.threads| && s.threads[t].Idle?
    case Thread(t) => t < |s.threads| && (prompt ==> !s.latched) && CanMove(s, t)
    case TimeOut(t) => t < |s.threads| && s.threads[t].Take? && s.sem == 0
    case Dequeue => s.hw.busy && s.hw.queue > 0
    case Complete => s.hw.busy && s.hw.queue == 0
    case Interrupt => s.latched
  }

  function Do(s: State, l: Label): State
    requires Enabled(s, l, false)
  {
    match l
    case Call(t, n, strided) => At(s, t, Check(n, strided))
    case CallMode(t, b) => At(s, t, LockMode(b))
    case Thread(t) => Move(s, t)
    case TimeOut(t) => At(s, t, Abort(s.threads[t].id))
    case Dequeue => s.(hw := s.hw.(queue := s.hw.queue - 1))
    case Complete => s.(latched := true, hw := s.hw.(busy := false, done := true, finished := s.hw.finished + {s.hw.current}))
    case Interrupt => s.(latched := false, isrFired := true, sem := 1)
  }

  ghost predicate Next(s: State, l: Label, s': State, prompt: bool) {
    Enabled(s, l, prompt) && Enabled(s, l, false) && s' == Do(s, l)
  }

  ghost predicate Start(s: State) {
    && (forall t :: 0 <= t < |s.threads| ==> s.threads[t].Idle?)
    && s.owner == -1 && s.sem == 0 && !s.latched && s.hw.queue == 0 && !s.hw.overflow && !s.hw.busy && !s.hw.done
    && s.hw.finished == {}
  }

  // ----- the invariant

  ghost predicate LockOk(s: State) {
    && -1 <= s.owner < |s.threads|
    && forall t :: 0 <= t < |s.threads| ==> (Holds(s.threads[t]) <==> t == s.owner)
  }

  /** No thread asks for more slots than there are. */
  ghost predicate SizesOk(s: State) {
    forall t :: 0 <= t < |s.threads| ==> SizeOk(s.threads[t], s.depth)
  }

  /** No batch is on its way: the hardware is idle and its queue empty. */
  ghost predicate Quiet(s: State) { !s.hw.busy && !s.latched }

  /** The state of the hardware and the semaphore, seen from the thread holding the lock. */
  ghost predicate OwnerOk(s: State)
    requires LockOk(s)
  {
    if s.owner == -1 then Quiet(s) && s.hw.queue == 0
    else
      match s.threads[s.owner]
      case Push(n, i) => Quiet(s) && s.hw.queue == i
      case ResetSem(n) => Quiet(s) && s.hw.queue == n
      case ClearFired(n) => Quiet(s) && s.hw.queue == n && s.sem == 0
      case Kick(n) => Quiet(s) && s.hw.queue == n && s.sem == 0 && !s.isrFired
      case Wait(id) => id == s.hw.current && BatchOk(s)
      case Poll(id) => id == s.hw.current && BatchOk(s)
      case Take(id) => id == s.hw.current && BatchOk(s)
      case Abort(id) => id == s.hw.current && BatchOk(s)
      case Collect(id) => Quiet(s) && s.hw.queue == 0 && id in s.hw.finished
      case _ => Quiet(s) && s.hw.queue == 0
  }

  /** A batch in flight: still running and nothing signalled, or completed, on record and signalled. */
  ghost predicate BatchOk(s: State) {
    if s.hw.busy then !s.hw.done && !s.latched && s.sem == 0 && s.hw.current !in s.hw.finished && !s.isrFired
    else s.hw.done && s.hw.queue == 0 && s.hw.current in s.hw.finished && (if s.latched then !s.isrFired else s.sem == 1 && s.isrFired)
  }

  ghost predicate Inv(s: State) {
    && LockOk(s) && SizesOk(s) && OwnerOk(s)
    && s.hw.queue <= s.depth && !s.hw.overflow && s.sem <= 1
    && forall id :: id in s.hw.finished ==> id <= s.hw.current
  }

  lemma StartInv(s: State)
    requires Start(s)
    ensures Inv(s)
  {
  }

  predicate SizeOk(pc: Pc, depth: nat) {
    match pc
    case Lock(n) => n <= depth
    case Push(n, i) => i <= n <= depth
    case _ => true
  }

  lemma MoveKeeps(s: State, t: nat, pc: Pc)
    requires LockOk(s) && SizesOk(s) && t < |s.threads|
    requires Holds(pc) == Holds(s.threads[t]) && SizeOk(pc, s.depth)
    ensures LockOk(At(s, t, pc)) && SizesOk(At(s, t, pc)) && At(s, t, pc).threads[t] == pc
  {
  }

  /** A thread that does not hold the lock changes nothing but its own place. */
  lemma OutsideKeeps(s: State, t: nat, pc: Pc)
    requires Inv(s) && t < |s.threads| && !Holds(s.threads[t]) && !Holds(pc) && SizeOk(pc, s.depth)
    ensures Inv(At(s, t, pc))
  {
    MoveKeeps(s, t, pc);
    assert t != s.owner;
  }

  lemma EnvironmentInv(s: State, l: Label, s': State)
    requires Inv(s) && Next(s, l, s', true) && (l.Dequeue? || l.Complete? || l.Interrupt?)
    ensures Inv(s')
  {
    assert SizesOk(s') && LockOk(s');
  }

  lemma CallInv(s: State, l: Label, s': State)
    requires Inv(s) && Next(s, l, s', true) && (l.Call? || l.CallMode? || l.TimeOut?)
    ensures Inv(s')
  {
    if l.TimeOut? {
      MoveKeeps(s, l.t, s'.threads[l.t]);
      assert l.t == s.owner;
    } else {
      OutsideKeeps(s, l.t, s'.threads[l.t]);
    }
  }

  lemma CheckMoves(s: State, t: nat) returns (pc: Pc)
    requires t < |s.threads| && (s.threads[t].Check? || s.threads[t].Refuse?) && s.hw.queue <= s.depth
    ensures CanMove(s, t) && Move(s, t) == At(s, t, pc) && !Holds(pc) && SizeOk(pc, s.depth)
    ensures s.threads[t].Refuse? ==> pc == Idle
    ensures s.threads[t].Check? ==>
      var n, free := s.threads[t].n, s.depth - s.hw.queue;
      && (pc.Lock? <==> 0 < n <= free && !s.threads[t].strided) && (pc.Lock? ==> pc.n == n)
      && (pc == Refuse(-22) <==> n == 0 || (n <= free && s.threads[t].strided))
      && (pc == Refuse(-16) <==> n > free)
  {
    pc := Move(s, t).threads[t];
  }

  /** The checks outside the lock, and the return of a call that fails one. */
  lemma CheckInv(s: State, t: nat, s': State)
    requires Inv(s) && t < |s.threads| && (s.threads[t].Check? || s.threads[t].Refuse?) && s' == Move(s, t)
    ensures Inv(s')
  {
    var pc := CheckMoves(s, t);
    OutsideKeeps(s, t, pc);
  }

  /** A thread takes the free mutex. */
  lemma AcquireKeeps(s: State, t: nat, pc: Pc)
    requires LockOk(s) && SizesOk(s) && s.owner == -1 && t < |s.threads| && Holds(pc) && SizeOk(pc, s.depth)
    ensures var s1 := At(s, t, pc).(owner := t); LockOk(s1) && SizesOk(s1)
  {
  }

  lemma AcquireInv(s: State, t: nat, s': State)
    requires Inv(s) && t < |s.threads| && (s.threads[t].Lock? || s.threads[t].LockMode?) && CanMove(s, t) && s' == Move(s, t)
    ensures Inv(s')
  {
    AcquireKeeps(s, t, s'.threads[t]);
  }

  /** The lock holder on its way to the kick. */
  lemma SubmitInv(s: State, t: nat, s': State)
    requires Inv(s) && t < |s.threads| && !s.latched && CanMove(s, t) && s' == Move(s, t)
    requires s.threads[t].Push? || s.threads[t].ResetSem? || s.threads[t].ClearFired? || s.threads[t].Kick?
    ensures Inv(s')
  {
    assert t == s.owner;
    MoveKeeps(s, t, s'.threads[t]);
  }

  /** The lock holder waiting for its batch. */
  lemma FlightInv(s: State, t: nat, s': State)
    requires Inv(s) && t < |s.threads| && !s.latched && CanMove(s, t) && s' == Move(s, t) && InFlight(s.threads[t])
    ensures Inv(s')
  {
    assert t == s.owner;
    MoveKeeps(s, t, s'.threads[t]);
  }

  /** The lock holder on its way out. */
  lemma ReleaseInv(s: State, t: nat, s': State)
    requires Inv(s) && t < |s.threads| && !s.latched && CanMove(s, t) && s' == Move(s, t)
    requires s.threads[t].Collect? || s.threads[t].Unlock? || s.threads[t].SetMode?
    ensures Inv(s')
  {
    assert t == s.owner;
    if s.threads[t].Unlock? {
      assert forall u :: 0 <= u < |s.threads| && u != t ==> !Holds(s'.threads[u]);
    } else {
      MoveKeeps(s, t, s'.threads[t]);
    }
  }

  lemma NextInv(s: State, l: Label, s': State)
    requires Inv(s) && Next(s, l, s', true)
    ensures Inv(s')
  {
    match l
    case Call(_, _, _) => CallInv(s, l, s');
    case CallMode(_, _) => CallInv(s, l, s');
    case TimeOut(_) => CallInv(s, l, s');
    case Thread(t) =>
      if s.threads[t].Check? || s.threads[t].Refuse? {
        CheckInv(s, t, s');
      } else if s.threads[t].Lock? || s.threads[t].LockMode? {
        AcquireInv(s, t, s');
      } else if s.threads[t].Push? || s.threads[t].ResetSem? || s.threads[t].ClearFired? || s.threads[t].Kick? {
        SubmitInv(s, t, s');
      } else if InFlight(s.threads[t]) {
        FlightInv(s, t, s');
      } else {
        ReleaseInv(s, t, s');
      }
    case _ => EnvironmentInv(s, l, s');
  }

  // ----- what follows for every run

  /** A run of the system from a start state. */
  ghost predicate IsRun(states: seq<State>, labels: seq<Label>, prompt: bool) {
    && |states| == |labels| + 1 && Start(states[0])
    && forall i :: 0 <= i < |labels| ==> Next(states[i], labels[i], states[i + 1], prompt)
  }

  lemma {:induction false} RunInv(states: seq<State>, labels: seq<Label>, i: nat)
    requires IsRun(states, labels, true) && i < |states|
    ensures Inv(states[i])
  {
    if i == 0 {
      StartInv(states[0]);
    } else {
      RunInv(states, labels, i - 1);
      NextInv(states[i - 1], labels[i - 1], states[i]);
    }
  }

  /** At most one batch is in flight, and while one is, nobody else is past the lock. */
  lemma OneBatch(states: seq<State>, labels: seq<Label>, i: nat, t: nat, u: nat)
    requires IsRun(states, labels, true) && i < |states|
    requires t < |states[i].threads| && u < |states[i].threads| && InFlight(states[i].threads[t])
    ensures Holds(states[i].threads[u]) ==> u == t
    ensures states[i].threads[t].id == states[i].hw.current
  {
    RunInv(states, labels, i);
  }

  /** The queue never overflows although its free count was read outside the lock; a kick is never
      ignored; and what is kicked is exactly the caller's batch. */
  lemma PushAndKickAccepted(states: seq<State>, labels: seq<Label>, i: nat, t: nat)
    requires IsRun(states, labels, true) && i < |labels| && labels[i] == Thread(t) && t < |states[i].threads|
    ensures !states[i].hw.overflow
    ensures states[i].threads[t].Push? && states[i].threads[t].i < states[i].threads[t].n ==>
      states[i + 1].hw.queue == states[i].threads[t].i + 1 <= states[i].depth
    ensures states[i].threads[t].Kick? ==>
      states[i + 1].hw.busy && states[i + 1].hw.queue == states[i].threads[t].n && states[i + 1].threads[t].id == states[i + 1].hw.current
  {
    RunInv(states, labels, i);
    var s := states[i];
    assert Next(s, labels[i], states[i + 1], true);
    assert Holds(s.threads[t]) ==> t == s.owner;
  }

  /** A semaphore taken, or a status polled, belongs to the batch kicked in that same call: the
      hardware has completed that very batch, nothing of it is left running, and a take uses the signal up. */
  lemma SuccessIsOwn(states: seq<State>, labels: seq<Label>, i: nat, t: nat)
    requires IsRun(states, labels, true) && i < |labels| && labels[i] == Thread(t) && t < |states[i].threads|
    requires states[i].threads[t].Take? || states[i].threads[t].Poll?
    ensures states[i].threads[t].id == states[i].hw.current
    ensures states[i].hw.current in states[i].hw.finished && !states[i].hw.busy && states[i].hw.queue == 0
    ensures states[i].threads[t].Take? ==> states[i].sem == 1 && states[i + 1].sem == 0
  {
    RunInv(states, labels, i);
    assert Next(states[i], labels[i], states[i + 1], true);
    assert t == states[i].owner;
  }

  /** No wakeup is lost, to k_sem_reset or otherwise: as long as a thread waits for a batch that the hardware
      has completed, either its interrupt or its own k_sem_take can go ahead ... */
  lemma WakeupKept(states: seq<State>, labels: seq<Label>, i: nat, t: nat)
    requires IsRun(states, labels, true) && i < |states| && t < |states[i].threads|
    requires states[i].threads[t].Take? && states[i].threads[t].id in states[i].hw.finished
    ensures Enabled(states[i], Interrupt, true) || Enabled(states[i], Thread(t), true)
  {
    RunInv(states, labels, i);
    assert t == states[i].owner;
  }

  /** ... and the interrupt is followed by the take: the wait is at most two steps long. */
  lemma InterruptWakes(states: seq<State>, labels: seq<Label>, i: nat, t: nat)
    requires IsRun(states, labels, true) && i < |labels| && t < |states[i].threads|
    requires states[i].threads[t].Take? && states[i].threads[t].id in states[i].hw.finished && labels[i] == Interrupt
    ensures states[i + 1].threads[t] == states[i].threads[t] && Enabled(states[i + 1], Thread(t), true)
    ensures Move(states[i + 1], t).threads[t] == Collect(states[i].threads[t].id)
  {
    assert Next(states[i], labels[i], states[i + 1], true);
  }

  /** A thread that polls is released in the same way: the status it reads is set as long as it reads it. */
  lemma PollReleased(states: seq<State>, labels: seq<Label>, i: nat, t: nat)
    requires IsRun(states, labels, true) && i < |states| && t < |states[i].threads| && states[i].threads[t].Poll?
    ensures CanMove(states[i], t) <==> states[i].threads[t].id in states[i].hw.finished
  {
    RunInv(states, labels, i);
    assert t == states[i].owner;
  }

  /** The other half of success: a batch in flight whose waiter cannot go ahead is one the hardware is still
      working on, and the hardware can always take its next step. */
  lemma InFlightProgresses(states: seq<State>, labels: seq<Label>, i: nat, t: nat)
    requires IsRun(states, labels, true) && i < |states| && t < |states[i].threads| && InFlight(states[i].threads[t])
    ensures states[i].threads[t].id in states[i].hw.finished <==> !states[i].hw.busy
    ensures states[i].hw.busy ==> Enabled(states[i], Dequeue, true) || Enabled(states[i], Complete, true)
  {
    RunInv(states, labels, i);
    assert t == states[i].owner;
  }

  /** When the lock is free, whatever happened before (timeouts included), the next caller finds the
      hardware idle and the queue empty. */
  lemma FreeMeansIdle(states: seq<State>, labels: seq<Label>, i: nat)
    requires IsRun(states, labels, true) && i < |states| && states[i].owner == -1
    ensures !states[i].hw.busy && !states[i].latched && states[i].hw.queue == 0
  {
    RunInv(states, labels, i);
  }

  // ----- what a call returns

  /** A thread moves only in its own steps. */
  lemma OthersStay(s: State, l: Label, s': State, t: nat)
    requires Next(s, l, s', true) && t < |s.threads| && l != Thread(t) && !s.threads[t].Idle? && !s.threads[t].Take?
    ensures t < |s'.threads| && s'.threads[t] == s.threads[t]
  {
  }

  /** Thread t unlocks and returns. */
  predicate Returns(s: State, l: Label, t: nat) {
    l == Thread(t) && t < |s.threads| && s.threads[t].Unlock?
  }

  /** Where the thread that kicked batch id can be, depending on whether its wait timed out. */
  ghost predicate Underway(s: State, t: nat, id: nat, timedOut: bool) {
    && t < |s.threads|
    && match s.threads[t]
      case Wait(b) => b == id && !timedOut
      case Poll(b) => b == id && !timedOut
      case Take(b) => b == id && !timedOut
      case Abort(b) => b == id && timedOut
      case Collect(b) => b == id && !timedOut && id in s.hw.finished
      case Unlock(rc) => if timedOut then rc == ETIMEDOUT else rc == 0 && id in s.hw.finished
      case _ => false
  }

  lemma UnderwayStep(s: State, l: Label, s': State, t: nat, id: nat, timedOut: bool)
    requires Inv(s) && Next(s, l, s', true) && Underway(s, t, id, timedOut) && !Returns(s, l, t)
    ensures Underway(s', t, id, timedOut || l == TimeOut(t))
  {
    assert Holds(s.threads[t]) && t == s.owner;
    if l == Thread(t) && (s.threads[t].Poll? || s.threads[t].Take?) {
      assert BatchOk(s) && s.threads[t].id in s.hw.finished;
    }
  }

  lemma KickStep(s: State, l: Label, s': State, t: nat)
    requires Inv(s) && Next(s, l, s', true) && l == Thread(t) && t < |s.threads| && s.threads[t].Kick?
    ensures Underway(s', t, s.hw.current + 1, false) && s'.hw.current == s.hw.current + 1 && s'.hw.current !in s.hw.finished
  {
    assert t == s.owner;
  }

  /** The wait of thread t timed out in one of the steps i to j. */
  function TimedOut(labels: seq<Label>, i: nat, j: nat, t: nat): (r: bool)
    requires i <= j <= |labels|
    ensures r <==> exists k :: i <= k < j && labels[k] == TimeOut(t)
  {
    i < j && (TimedOut(labels, i, j - 1, t) || labels[j - 1] == TimeOut(t))
  }

  lemma RunStep(states: seq<State>, labels: seq<Label>, i: nat) returns (s: State, l: Label, s': State)
    requires IsRun(states, labels, true) && i < |labels|
    ensures s == states[i] && l == labels[i] && s' == states[i + 1]
    ensures Inv(s) && Next(s, l, s', true)
  {
    RunInv(states, labels, i);
    s, l, s' := states[i], labels[i], states[i + 1];
  }

  lemma {:induction false} KickedUnderway(states: seq<State>, labels: seq<Label>, i: nat, j: nat, t: nat, id: nat) returns (late: bool)
    requires IsRun(states, labels, true) && i < j <= |labels|
    requires labels[i] == Thread(t) && t < |states[i].threads| && states[i].threads[t].Kick? && id == states[i].hw.current + 1
    requires forall k :: i < k < j ==> !Returns(states[k], labels[k], t)
    ensures late == TimedOut(labels, i, j, t) && Underway(states[j], t, id, late)
  {
    var s, l, s' := RunStep(states, labels, j - 1);
    if j == i + 1 {
      KickStep(s, l, s', t);
      late := false;
    } else {
      var before := KickedUnderway(states, labels, i, j - 1, t, id);
      UnderwayStep(s, l, s', t, id, before);
      late := before || l == TimeOut(t);
    }
  }

  /** A call that kicked a batch returns 0 exactly if its wait did not time out, and then the hardware has
      completed that very batch since the kick; otherwise it returns -ETIMEDOUT. */
  lemma ReturnCode(states: seq<State>, labels: seq<Label>, i: nat, j: nat, t: nat)
    requires IsRun(states, labels, true) && i < j < |labels|
    requires labels[i] == Thread(t) && t < |states[i].threads| && states[i].threads[t].Kick?
    requires Returns(states[j], labels[j], t)
    requires forall k :: i < k < j ==> !Returns(states[k], labels[k], t)
    ensures states[j].threads[t].rc == 0 <==> forall k :: i <= k < j ==> labels[k] != TimeOut(t)
    ensures states[j].threads[t].rc == 0 ==>
      states[i + 1].hw.current in states[j].hw.finished && states[i + 1].hw.current !in states[i].hw.finished
    ensures states[j].threads[t].rc != 0 ==> states[j].threads[t].rc == -116
    ensures states[j + 1].threads[t].Idle? && states[j + 1].owner == -1
  {
    var late := KickedUnderway(states, labels, i, j, t, states[i].hw.current + 1);
    RunInv(states, labels, i);
    assert Next(states[i], labels[i], states[i + 1], true);
    KickStep(states[i], labels[i], states[i + 1], t);
    assert Next(states[j], labels[j], states[j + 1], true);
  }

  /** A call waits outside the lock with its arguments until it does its checks. */
  lemma {:induction false} CallWaits(states: seq<State>, labels: seq<Label>, i: nat, j: nat, t: nat)
    requires IsRun(states, labels, true) && i < j <= |labels| && labels[i].Call? && labels[i].t == t
    requires forall k :: i < k < j ==> labels[k] != Thread(t)
    ensures t < |states[j].threads| && states[j].threads[t] == Check(labels[i].n, labels[i].strided)
  {
    assert Next(states[j - 1], labels[j - 1], states[j], true);
    if i + 1 < j {
      CallWaits(states, labels, i, j - 1, t);
      OthersStay(states[j - 1], labels[j - 1], states[j], t);
    }
  }

  /** The first statement of a call decides whether it is refused, and with which code: -EINVAL (22) for no
      tiles, -EBUSY (16) for more tiles than free slots, -EINVAL for a strided INT8 batch.  A refused call
      has touched nothing, and -EBUSY for a batch the queue could hold means that another thread has the lock. */
  lemma CallChecked(states: seq<State>, labels: seq<Label>, i: nat, j: nat, t: nat)
    requires IsRun(states, labels, true) && i < j < |labels| && labels[i].Call? && labels[i].t == t
    requires labels[j] == Thread(t) && forall k :: i < k < j ==> labels[k] != Thread(t)
    ensures t < |states[j].threads| && states[j + 1] == At(states[j], t, states[j + 1].threads[t])
    ensures var n, free, pc := labels[i].n, states[j].depth - states[j].hw.queue, states[j + 1].threads[t];
      && (pc.Lock? <==> 0 < n <= free && !labels[i].strided) && (pc.Lock? ==> pc.n == n)
      && (pc == Refuse(-22) <==> n == 0 || (n <= free && labels[i].strided))
      && (pc == Refuse(-16) <==> n > free)
    ensures states[j + 1].threads[t] == Refuse(-16) && labels[i].n <= states[j].depth ==>
      0 <= states[j].owner < |states[j].threads| && states[j].owner != t
  {
    CallWaits(states, labels, i, j, t);
    RunInv(states, labels, j);
    var pc := CheckMoves(states[j], t);
    assert states[j + 1] == Move(states[j], t) by {
      assert Next(states[j], labels[j], states[j + 1], true);
    }
  }

  /** A refused call returns its code and never takes the lock. */
  lemma {:induction false} RefusedReturns(states: seq<State>, labels: seq<Label>, i: nat, j: nat, t: nat, rc: int)
    requires IsRun(states, labels, true) && i <= j < |labels| && t < |states[i].threads| && states[i].threads[t] == Refuse(rc)
    requires labels[j] == Thread(t) && forall k :: i <= k < j ==> labels[k] != Thread(t)
    ensures t < |states[j].threads| && states[j].threads[t] == Refuse(rc) && states[j].owner != t
    ensures states[j + 1] == At(states[j], t, Idle)
    decreases j - i
  {
    RunInv(states, labels, i);
    assert Next(states[i], labels[i], states[i + 1], true);
    if i < j {
      OthersStay(states[i], labels[i], states[i + 1], t);
      RefusedReturns(states, labels, i + 1, j, t, rc);
    }
  }

  /** On its way to the kick a thread carries the tile count of its call. */
  ghost predicate Submitting(s: State, t: nat, n: nat) {
    && t < |s.threads|
    && match s.threads[t]
      case Check(m, _) => m == n
      case Lock(m) => m == n
      case Push(m, _) => m == n
      case ResetSem(m) => m == n
      case ClearFired(m) => m == n
      case Kick(m) => m == n
      case _ => true
  }

  lemma SubmittingStep(s: State, l: Label, s': State, t: nat, n: nat)
    requires Next(s, l, s', true) && Submitting(s, t, n) && !(l.Call? && l.t == t)
    ensures Submitting(s', t, n)
  {
  }

  lemma {:induction false} CallSubmits(states: seq<State>, labels: seq<Label>, i: nat, j: nat, t: nat, n: nat)
    requires IsRun(states, labels, true) && i < j <= |labels| && labels[i].Call? && labels[i].t == t && labels[i].n == n
    requires forall k :: i < k < j ==> !(labels[k].Call? && labels[k].t == t)
    ensures Submitting(states[j], t, n)
  {
    var s, l, s' := RunStep(states, labels, j - 1);
    if i + 1 < j {
      CallSubmits(states, labels, i, j - 1, t, n);
      SubmittingStep(s, l, s', t, n);
    }
  }

  /** What a call kicks is a queue that holds exactly the tiles it was given, and the kick is taken. */
  lemma KicksWhatWasGiven(states: seq<State>, labels: seq<Label>, i: nat, j: nat, t: nat)
    requires IsRun(states, labels, true) && i < j < |labels| && labels[i].Call? && labels[i].t == t
    requires forall k :: i < k < j ==> !(labels[k].Call? && labels[k].t == t)
    requires labels[j] == Thread(t) && t < |states[j].threads| && states[j].threads[t].Kick?
    ensures states[j + 1].hw.busy && states[j + 1].hw.queue == labels[i].n
  {
    CallSubmits(states, labels, i, j, t, labels[i].n);
    PushAndKickAccepted(states, labels, j, t);
  }

  // ----- which way a batch is awaited

  ghost predicate SetsMode(s: State, l: Label) {
    l.Thread? && l.t < |s.threads| && s.threads[l.t].SetMode?
  }

  /** Only that statement writes the mode. */
  lemma ModeStep(s: State, l: Label, s': State)
    requires Next(s, l, s', true)
    ensures s'.pollMode == (if SetsMode(s, l) then s.threads[l.t].poll else s.pollMode)
  {
  }

  ghost predicate SettingMode(s: State, t: nat, poll: bool) {
    t < |s.threads| && (s.threads[t] == LockMode(poll) || s.threads[t] == SetMode(poll))
  }

  lemma ModeCallStep(s: State, l: Label, s': State, t: nat, poll: bool)
    requires Next(s, l, s', true) && SettingMode(s, t, poll) && !(SetsMode(s, l) && l.t == t)
    ensures SettingMode(s', t, poll)
  {
    if l != Thread(t) {
      OthersStay(s, l, s', t);
    }
  }

  lemma {:induction false} ModeStays(states: seq<State>, labels: seq<Label>, i: nat, j: nat)
    requires IsRun(states, labels, true) && i <= j <= |labels|
    requires forall k :: i <= k < j ==> !SetsMode(states[k], labels[k])
    ensures states[j].pollMode == states[i].pollMode
  {
    if i < j {
      ModeStays(states, labels, i, j - 1);
      assert Next(states[j - 1], labels[j - 1], states[j], true);
      ModeStep(states[j - 1], labels[j - 1], states[j]);
    }
  }

  lemma {:induction false} ModeCall(states: seq<State>, labels: seq<Label>, c: nat, i: nat, t: nat, poll: bool)
    requires IsRun(states, labels, true) && c < i <= |labels| && labels[c] == CallMode(t, poll)
    requires forall k :: c < k < i ==> !(SetsMode(states[k], labels[k]) && labels[k].t == t)
    ensures SettingMode(states[i], t, poll)
  {
    var s, l, s' := RunStep(states, labels, i - 1);
    if c + 1 < i {
      ModeCall(states, labels, c, i - 1, t, poll);
      ModeCallStep(s, l, s', t, poll);
    }
  }

  /** A batch is polled for exactly if the last gemm_set_poll_mode to write the mode asked for polling. */
  lemma ModeMeans(states: seq<State>, labels: seq<Label>, c: nat, i: nat, j: nat, t: nat, u: nat)
    requires IsRun(states, labels, true) && c < i < j < |labels| && labels[c].CallMode? && labels[c].t == t
    requires labels[i] == Thread(t) && SetsMode(states[i], labels[i])
    requires forall k :: c < k < i ==> !(SetsMode(states[k], labels[k]) && labels[k].t == t)
    requires forall k :: i < k < j ==> !SetsMode(states[k], labels[k])
    requires labels[j] == Thread(u) && u < |states[j].threads| && states[j].threads[u].Wait?
    ensures states[j + 1].threads[u] == (if labels[c].poll then Poll(states[j].threads[u].id) else Take(states[j].threads[u].id))
  {
    ModeCall(states, labels, c, i, t, labels[c].poll);
    assert Next(states[i], labels[i], states[i + 1], true);
    ModeStays(states, labels, i + 1, j);
    assert Next(states[j], labels[j], states[j + 1], true);
  }

  // ----- why the interrupt must be prompt

  function Last<T>(s: seq<T>): T
    requires s != []
  {
    s[|s| - 1]
  }

  lemma Extend(states: seq<State>, labels: seq<Label>, l: Label) returns (states': seq<State>, labels': seq<Label>)
    requires IsRun(states, labels, false) && Enabled(Last(states), l, false)
    ensures IsRun(states', labels', false) && Last(states') == Do(Last(states), l)
  {
    states', labels' := states + [Do(Last(states), l)], labels + [l];
  }

  /** One thread, one queue slot, polling: its first batch is queued ... */
  lemma FirstPush() returns (states: seq<State>, labels: seq<Label>)
    ensures IsRun(states, labels, false)
    ensures Last(states) == State(1, [Push(1, 1)], 0, 0, true, false, false, Accelerator(1, false, false, false, 0, {}))
  {
    states, labels := [State(1, [Idle], -1, 0, true, false, false, Accelerator(0, false, false, false, 0, {}))], [];
    states, labels := Extend(states, labels, Call(0, 1, false));
    states, labels := Extend(states, labels, Thread(0));
    states, labels := Extend(states, labels, Thread(0));
    states, labels := Extend(states, labels, Thread(0));
  }

  /** ... and kicked, ... */
  lemma FirstKick() returns (states: seq<State>, labels: seq<Label>)
    ensures IsRun(states, labels, false)
    ensures Last(states) == State(1, [Wait(1)], 0, 0, true, false, false, Accelerator(1, false, true, false, 1, {}))
  {
    states, labels := FirstPush();
    states, labels := Extend(states, labels, Thread(0));
    states, labels := Extend(states, labels, Thread(0));
    states, labels := Extend(states, labels, Thread(0));
    states, labels := Extend(states, labels, Thread(0));
  }

  /** ... is fetched from the queue, ... */
  lemma PolledRunning() returns (states: seq<State>, labels: seq<Label>)
    ensures IsRun(states, labels, false)
    ensures Last(states) == State(1, [Poll(1)], 0, 0, true, false, false, Accelerator(0, false, true, false, 1, {}))
  {
    states, labels := FirstKick();
    states, labels := Extend(states, labels, Thread(0));
    states, labels := Extend(states, labels, Dequeue);
  }

  /** ... completes, ... */
  lemma PolledCompletion() returns (states: seq<State>, labels: seq<Label>)
    ensures IsRun(states, labels, false)
    ensures Last(states) == State(1, [Poll(1)], 0, 0, true, false, true, Accelerator(0, false, false, true, 1, {1}))
  {
    states, labels := PolledRunning();
    var none: set<nat> := {};
    assert none + {1} == {1};
    states, labels := Extend(states, labels, Complete);
  }

  /** ... and is collected, but its interrupt stays latched. */
  lemma PolledBatch() returns (states: seq<State>, labels: seq<Label>)
    ensures IsRun(states, labels, false)
    ensures Last(states) == State(1, [Idle], -1, 0, true, false, true, Accelerator(0, false, false, true, 1, {1}))
  {
    states, labels := PolledCompletion();
    states, labels := Extend(states, labels, Thread(0));
    states, labels := Extend(states, labels, Thread(0));
    states, labels := Extend(states, labels, Thread(0));
  }

  /** Then the thread stops polling ... */
  lemma StoppedPolling() returns (states: seq<State>, labels: seq<Label>)
    ensures IsRun(states, labels, false)
    ensures Last(states) == State(1, [Idle], -1, 0, false, false, true, Accelerator(0, false, false, true, 1, {1}))
  {
    states, labels := PolledBatch();
    states, labels := Extend(states, labels, CallMode(0, false));
    states, labels := Extend(states, labels, Thread(0));
    states, labels := Extend(states, labels, Thread(0));
    states, labels := Extend(states, labels, Thread(0));
  }

  /** ... queues a second batch ... */
  lemma SecondPush() returns (states: seq<State>, labels: seq<Label>)
    ensures IsRun(states, labels, false)
    ensures Last(states) == State(1, [Push(1, 1)], 0, 0, false, false, true, Accelerator(1, false, false, true, 1, {1}))
  {
    states, labels := StoppedPolling();
    states, labels := Extend(states, labels, Call(0, 1, false));
    states, labels := Extend(states, labels, Thread(0));
    states, labels := Extend(states, labels, Thread(0));
    states, labels := Extend(states, labels, Thread(0));
  }

  /** ... and kicks it. */
  lemma SecondBatch() returns (states: seq<State>, labels: seq<Label>)
    ensures IsRun(states, labels, false)
    ensures Last(states) == State(1, [Wait(2)], 0, 0, false, false, true, Accelerator(1, false, true, false, 2, {1}))
  {
    states, labels := SecondPush();
    states, labels := Extend(states, labels, Thread(0));
    states, labels := Extend(states, labels, Thread(0));
    states, labels := Extend(states, labels, Thread(0));
    states, labels := Extend(states, labels, Thread(0));
  }

  /** Without promptness the promise fails: the first batch's interrupt, run late, satisfies the
      semaphore of the second batch while that one is still running. */
  lemma LateInterruptMisleads() returns (states: seq<State>, labels: seq<Label>)
    ensures IsRun(states, labels, false)
    ensures var s := Last(states);
      && s.threads == [Take(2)] && Enabled(s, Thread(0), false)
      && s.hw.current == 2 && s.hw.busy && 2 !in s.hw.finished
  {
    states, labels := SecondBatch();
    states, labels := Extend(states, labels, Interrupt);
    states, labels := Extend(states, labels, Thread(0));
  }
}
