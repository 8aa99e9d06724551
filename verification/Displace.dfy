/** Cache maintenance by set displacement (zephyr/drivers/cache/cache_rv32_5stage.c). */
module Displace {
  import opened DCache
  import opened DCacheRuns
  import opened Modulus

  // ----- the set index

  /** Bitwise and of natural numbers. */
  function And(x: nat, y: nat): nat {
    if x == 0 || y == 0 then 0 else (if x % 2 == 1 && y % 2 == 1 then 1 else 0) + 2 * And(x / 2, y / 2)
  }

  /** The build check of the driver: DC_SETS is a power of two. */
  predicate PowerOfTwo(s: nat) { s > 0 && And(s, s - 1) == 0 }

  lemma {:induction false} AndSelf(x: nat)
    ensures And(x, x) == x
  {
    if x > 0 {
      AndSelf(x / 2);
    }
  }

  /** Masking with DC_SETS - 1 is reducing modulo DC_SETS, for every set count the build check admits. */
  lemma {:induction false} MaskIsMod(x: nat, s: nat)
    requires PowerOfTwo(s)
    ensures And(x, s - 1) == x % s
    decreases s
  {
    if s > 1 {
      if s % 2 == 1 {
        AndSelf(s / 2);
      } else {
        var h := s / 2;
        assert (s - 1) / 2 == h - 1 && (s - 1) % 2 == 1;
        MaskIsMod(x / 2, h);
        HalfMod(x, h);
      }
    }
  }

  /** The hardware set that the walk touches for line l, when the driver believes in `sets` sets and
      its buffer starts at line `buf`. */
  function TouchedSet(l: nat, buf: nat, sets: nat, hw: nat): nat
    requires sets > 0 && hw > 0
  {
    (buf + l % sets) % hw
  }

  /** The walk hits every line's own set exactly if the configured cache size is a multiple of the
      real one: too large is harmless, too small displaces the wrong sets. */
  lemma GeometryMatters(buf: nat, sets: nat, hw: nat)
    requires sets > 0 && hw > 0 && buf % sets == 0
    ensures (forall l: nat :: TouchedSet(l, buf, sets, hw) == l % hw) <==> sets % hw == 0
  {
    if sets % hw == 0 {
      forall l: nat ensures TouchedSet(l, buf, sets, hw) == l % hw {
        ModOfMultiple(buf, sets, hw);
        ModOfMultiple(l, sets, hw);
        ModAdd(buf, l % sets, hw);
      }
    } else {
      assert TouchedSet(0, buf, sets, hw) == buf % hw && TouchedSet(sets, buf, sets, hw) == buf % hw;
      assert 0 % hw == 0 && sets % hw != 0;
    }
  }

  // ----- the walks

  /** The buffer line for set x % sets lies in the hardware set of line x. */
  lemma SameSet(x: nat, buf: nat, sets: nat, hw: nat)
    requires sets > 0 && hw > 0 && buf % sets == 0 && sets % hw == 0
    ensures (buf + x % sets) % hw == x % hw
  {
    GeometryMatters(buf, sets, hw);
    assert TouchedSet(x, buf, sets, hw) == x % hw;
  }

  /** The lines that meet the byte range addr .. addr + size. */
  ghost function LinesOf(addr: nat, size: nat): (d: set<nat>)
    ensures forall l :: l in d <==> addr / LINE <= l && l * LINE < addr + size && size > 0
  {
    set l: nat | addr / LINE <= l <= (addr + size) / LINE && l * LINE < addr + size && size > 0
  }

  /** They are the lines of its bytes. */
  lemma LinesMeet(addr: nat, size: nat, l: nat)
    ensures l in LinesOf(addr, size) <==> exists b :: addr <= b < addr + size && b / LINE == l
  {
    if l in LinesOf(addr, size) {
      var b := if l == addr / LINE then addr else l * LINE;
      assert addr <= b < addr + size && b / LINE == l;
    }
  }

  /** Touching another line of its set puts a line out of the cache. */
  lemma TouchDisplaces(m: Mem, l: nat, other: nat)
    requires Valid(m) && other < |m.dram| && other != l && other % m.sets == l % m.sets
    ensures !Resident(Touch(m, other), l)
  {
  }

  lemma {:induction false} RunAppend(m: Mem, a: seq<Event>, b: seq<Event>)
    requires Valid(m) && InBounds(a, |m.dram|) && InBounds(b, |m.dram|)
    ensures InBounds(a + b, |m.dram|) && Run(m, a + b) == Run(Run(m, a), b)
    decreases |a|
  {
    if a == [] {
      assert a + b == b;
    } else {
      assert (a + b)[1..] == a[1..] + b;
      RunAppend(Happen(m, a[0]), a[1..], b);
    }
  }

  /** An event log of CPU accesses off the lines of D, stores only from `noise`. */
  ghost predicate Allowed(log: seq<Event>, D: set<nat>, noise: nat -> seq<Access>) {
    forall i :: 0 <= i < |log| ==>
      log[i].Cpu? && EventLine(log[i]) !in D && (log[i].access.Store? ==> exists k: nat :: log[i].access in noise(k))
  }

  ghost predicate Quiet(noise: nat -> seq<Access>, D: set<nat>, lines: nat) {
    forall k: nat, a :: a in noise(k) ==> a.addr / LINE < lines && a.addr / LINE !in D
  }

  /** No line of D that was out of the cache has come in. */
  ghost predicate StaysOut(before: Mem, after: Mem, D: set<nat>) {
    && before.sets > 0 && after.sets > 0
    && forall l :: l in D && !Resident(before, l) ==> !Resident(after, l)
  }

  /** No line of D that belongs to this set of the driver's walk is cached. */
  ghost predicate OutOfSet(m: Mem, D: set<nat>, sets: nat, set_: nat) {
    && m.sets > 0 && sets > 0
    && forall x :: x in D && x % sets == set_ ==> !Resident(m, x)
  }

  /** One more access of the noise. */
  lemma OneMore(m0: Mem, log: seq<Event>, a: Access, D: set<nat>, noise: nat -> seq<Access>, k: nat)
    requires Valid(m0) && InBounds(log, |m0.dram|) && Allowed(log, D, noise) && StaysOut(m0, Run(m0, log), D)
    requires Quiet(noise, D, |m0.dram|) && a in noise(k)
    ensures InBounds(log + [Cpu(a)], |m0.dram|) && Allowed(log + [Cpu(a)], D, noise)
    ensures Run(m0, log + [Cpu(a)]) == Step(Run(m0, log), a)
    ensures StaysOut(m0, Step(Run(m0, log), a), D)
  {
    var m := Run(m0, log);
    RunAppend(m0, log, [Cpu(a)]);
    assert Run(m, [Cpu(a)]) == Step(m, a);
  }

  /** Touching the buffer line of a set empties that set of D and brings no line of D in. */
  lemma SetEmptied(m: Mem, D: set<nat>, buf: nat, sets: nat, set_: nat)
    requires Valid(m) && sets > 0 && sets % m.sets == 0 && buf % sets == 0 && buf + sets <= |m.dram| && set_ < sets
    requires forall l :: l in D ==> !(buf <= l < buf + sets)
    ensures var t := Touch(m, buf + set_); StaysOut(m, t, D) && OutOfSet(t, D, sets, set_)
  {
    forall x | x in D && x % sets == set_ ensures !Resident(Touch(m, buf + set_), x) {
      SameSet(x, buf, sets, m.sets);
      TouchDisplaces(m, x, buf + set_);
    }
  }

  /** The memory system as the driver drives it.  noise(k) is what else the CPU does before the k-th
      iteration of any walk: the volatile sink, interrupts, other threads.  `turn` counts the iterations
      of all walks, so no two of them need see the same accesses. */
  class Soc {
    const dcSets: nat
    const buf: nat
    var mem: Mem
    var turn: nat

    ghost predicate Ok()
      reads this
    {
      && Valid(mem) && PowerOfTwo(dcSets)
      && dcSets % mem.sets == 0 && buf % dcSets == 0 && buf + dcSets <= |mem.dram|
    }

    ghost predicate OffBuffer(D: set<nat>) {
      forall l :: l in D ==> !(buf <= l < buf + dcSets)
    }

    constructor (dcSets: nat, buf: nat, mem: Mem)
      ensures this.dcSets == dcSets && this.buf == buf && this.mem == mem && turn == 0
    {
      this.dcSets, this.buf, this.mem, turn := dcSets, buf, mem, 0;
    }

    /** Some other CPU activity. */
    method Interleave(accesses: seq<Access>, ghost D: set<nat>, ghost noise: nat -> seq<Access>, ghost k: nat)
      returns (ghost log: seq<Event>)
      requires Ok() && Quiet(noise, D, |mem.dram|) && accesses == noise(k)
      modifies this`mem
      ensures Ok() && InBounds(log, |old(mem).dram|) && mem == Run(old(mem), log)
      ensures mem.sets == old(mem).sets && |mem.dram| == |old(mem).dram| && Allowed(log, D, noise)
      ensures StaysOut(old(mem), mem, D)
    {
      log := [];
      for i := 0 to |accesses|
        invariant Ok() && InBounds(log, |old(mem).dram|) && mem == Run(old(mem), log)
        invariant mem.sets == old(mem).sets && |mem.dram| == |old(mem).dram| && Allowed(log, D, noise)
        invariant StaysOut(old(mem), mem, D)
      {
        var a := accesses[i];
        OneMore(old(mem), log, a, D, noise, k);
        mem := Step(mem, a);
        log := log + [Cpu(a)];
      }
    }

    /** The load of one byte of the displacement buffer. */
    method TouchBuffer(set_: nat, ghost D: set<nat>, ghost noise: nat -> seq<Access>)
      returns (v: byte, ghost log: seq<Event>)
      requires Ok() && set_ < dcSets && OffBuffer(D)
      modifies this`mem
      ensures Ok() && InBounds(log, |old(mem).dram|) && mem == Run(old(mem), log)
      ensures mem.sets == old(mem).sets && |mem.dram| == |old(mem).dram| && Allowed(log, D, noise)
      ensures mem == Touch(old(mem), buf + set_)
      ensures v == View(old(mem), buf + set_)[0]
    {
      var a := Load((buf + set_) * LINE);
      log := [Cpu(a)];
      assert Run(mem, log) == Step(mem, a);
      v := View(mem, buf + set_)[0];
      mem := Step(mem, a);
    }

    /** One iteration of a walk: line l, if it is one of D, leaves the cache. */
    method DisplaceSet(set_: nat, l: nat, noise: nat -> seq<Access>, ghost D: set<nat>)
      returns (ghost log: seq<Event>)
      requires Ok() && set_ < dcSets && OffBuffer(D) && l % dcSets == set_
      requires Quiet(noise, D, |mem.dram|)
      modifies this`mem, this`turn
      ensures turn == old(turn) + 1
      ensures Ok() && Walked(old(mem), mem, log, D, noise)
      ensures StaysOut(old(mem), mem, D) && OutOfSet(mem, D, dcSets, set_)
      ensures l in D ==> !Resident(mem, l)
    {
      ghost var m0 := mem;
      var log1 := Interleave(noise(turn), D, noise, turn);
      ghost var m1 := mem;
      var v, log2 := TouchBuffer(set_, D, noise);
      RunAppend(m0, log1, log2);
      log := log1 + log2;
      SetEmptied(m1, D, buf, dcSets, set_);
      turn := turn + 1;
    }

    /** displace_range: afterwards no line meeting the range is cached.  D is any set of lines that
        contains the range's and that the noise leaves alone. */
    method DisplaceRange(addr: nat, size: nat, noise: nat -> seq<Access>, ghost D: set<nat>)
      returns (ghost log: seq<Event>)
      requires Ok() && LinesOf(addr, size) <= D && OffBuffer(D) && Quiet(noise, D, |mem.dram|)
      modifies this`mem, this`turn
      ensures turn >= old(turn)
      ensures Ok() && Walked(old(mem), mem, log, D, noise)
      ensures Absent(mem, LinesOf(addr, size))
    {
      ghost var R := LinesOf(addr, size);
      log := [];
      var a, end := addr / LINE * LINE, addr + size;
      ghost var line: nat := addr / LINE;
      while a < end
        invariant a == line * LINE && Ok() && turn >= old(turn)
        invariant Walked(old(mem), mem, log, D, noise)
        invariant forall l :: l in R && l < line ==> !Resident(mem, l)
        decreases end - a
      {
        var l := a / LINE;
        assert l == line;
        var set_ := And(l, dcSets - 1);
        MaskIsMod(l, dcSets);
        ghost var step;
        step := DisplaceSet(set_, l, noise, D);
        RunAppend(old(mem), log, step);
        assert forall x :: x in R && x < line + 1 ==> x in D && (x == line || x < line);
        log, line := log + step, line + 1;
        a := a + LINE;
      }
      assert forall l :: l in R ==> l < line;
    }

    /** displace_all: afterwards no line of D is cached, for any D off the buffer that the noise
        leaves alone. */
    method DisplaceAll(noise: nat -> seq<Access>, ghost D: set<nat>) returns (ghost log: seq<Event>)
      requires Ok() && OffBuffer(D) && Quiet(noise, D, |mem.dram|)
      modifies this`mem, this`turn
      ensures turn >= old(turn)
      ensures Ok() && Walked(old(mem), mem, log, D, noise)
      ensures Absent(mem, D)
    {
      log := [];
      var set_ := 0;
      while set_ < dcSets
        invariant 0 <= set_ <= dcSets && Ok() && turn >= old(turn)
        invariant Walked(old(mem), mem, log, D, noise)
        invariant forall l :: l in D && l % dcSets < set_ ==> !Resident(mem, l)
      {
        ghost var step;
        SmallMod(set_, dcSets);
        step := DisplaceSet(set_, set_, noise, D);
        RunAppend(old(mem), log, step);
        log := log + step;
        set_ := set_ + 1;
      }
    }
  }

  lemma SmallMod(x: nat, n: nat)
    requires x < n
    ensures x % n == x
  {
  }

  /** A walk is a run of CPU accesses off the lines of D. */
  ghost predicate Walked(before: Mem, after: Mem, log: seq<Event>, D: set<nat>, noise: nat -> seq<Access>) {
    && Valid(before) && InBounds(log, |before.dram|) && after == Run(before, log)
    && Allowed(log, D, noise)
  }

  lemma {:induction false} RunAbsent(m: Mem, es: seq<Event>, D: set<nat>)
    requires Absent(m, D) && InBounds(es, |m.dram|)
    requires forall i :: 0 <= i < |es| ==> es[i].Cpu? && EventLine(es[i]) !in D
    ensures Absent(Run(m, es), D)
    decreases |es|
  {
    if es != [] {
      StepAbsent(m, es[0].access, D);
      RunAbsent(Happen(m, es[0]), es[1..], D);
    }
  }

  lemma {:induction false} FlatRunOff(f: seq<Line>, es: seq<Event>, l: nat)
    requires InBounds(es, |f|) && l < |f|
    requires forall i :: 0 <= i < |es| ==> EventLine(es[i]) != l
    ensures FlatRun(f, es)[l] == f[l]
    decreases |es|
  {
    if es != [] {
      FlatRunOff(FlatHappen(f, es[0]), es[1..], l);
    }
  }

  /** flush_range: the range has left the cache, DRAM holds what the CPU saw there, and the CPU
      still sees the same everywhere (but for its own stores). */
  lemma FlushOutcome(before: Mem, after: Mem, log: seq<Event>, D: set<nat>, R: set<nat>, noise: nat -> seq<Access>)
    requires Coherent(before) && Walked(before, after, log, D, noise) && R <= D && Absent(after, R)
    ensures Coherent(after) && Flat(after) == FlatRun(Flat(before), log)
    ensures forall l: nat :: l in R && l < |before.dram| ==> after.dram[l] == View(before, l) == View(after, l)
  {
    RunRefinesFlat(before, log);
    forall l: nat | l in R && l < |before.dram| ensures after.dram[l] == View(before, l) == View(after, l) {
      FlatRunOff(Flat(before), log, l);
      assert Flat(after)[l] == View(after, l);
    }
  }

  /** invd_range on lines the DMA owned: the CPU now reads the DMA's data and the memory is coherent. */
  lemma InvdOutcome(before: Mem, after: Mem, log: seq<Event>, D: set<nat>, noise: nat -> seq<Access>)
    requires Shared(before, D) && Walked(before, after, log, D, noise) && Absent(after, D)
    ensures Coherent(after) && Flat(after) == FlatRun(Meant(before, D), log)
  {
    RunKeeps(before, log, D);
    AbsentMeans(after, D);
  }

  lemma {:induction false} FlatRunAppend(f: seq<Line>, a: seq<Event>, b: seq<Event>)
    requires InBounds(a, |f|) && InBounds(b, |f|)
    ensures InBounds(a + b, |f|) && FlatRun(f, a + b) == FlatRun(FlatRun(f, a), b)
    decreases |a|
  {
    if a == [] {
      assert a + b == b;
    } else {
      assert (a + b)[1..] == a[1..] + b;
      FlatRunAppend(FlatHappen(f, a[0]), a[1..], b);
    }
  }

  /** The usage the driver's header prescribes, flush(dst), DMA, invd(dst), over every interleaving
      with CPU accesses off dst: the outcome is the flat memory's, DMA bytes included, and since it
      is coherent no later write-back can overwrite a DMA byte. */
  lemma SafeUsage(m0: Mem, m1: Mem, m3: Mem, log1: seq<Event>, es: seq<Event>, log3: seq<Event>, D: set<nat>,
                  noise1: nat -> seq<Access>, noise3: nat -> seq<Access>)
    requires Coherent(m0) && Walked(m0, m1, log1, D, noise1) && Absent(m1, D)
    requires InBounds(es, |m1.dram|) && Disciplined(es, D)
    requires Walked(Run(m1, es), m3, log3, D, noise3) && Absent(m3, D)
    ensures Coherent(m3) && InBounds(log1 + es + log3, |m0.dram|)
    ensures Flat(m3) == FlatRun(Flat(m0), log1 + es + log3)
  {
    FlushOutcome(m0, m1, log1, D, D, noise1);
    AbsentHandsOver(m1, D);
    RunKeeps(m1, es, D);
    InvdOutcome(Run(m1, es), m3, log3, D, noise3);
    FlatRunAppend(Flat(m0), log1, es);
    FlatRunAppend(Flat(m0), log1 + es, log3);
  }
}
