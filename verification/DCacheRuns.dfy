/** Runs of the cached memory: CPU accesses interleaved with a DMA agent behind the cache. */
module DCacheRuns {
  import opened DCache

  /** What happens on the memory: a CPU access, or a DMA write of one byte. */
  datatype Event = Cpu(access: Access) | Dma(addr: nat, value: byte)

  function EventLine(e: Event): nat {
    match e
    case Cpu(a) => a.addr / LINE
    case Dma(addr, _) => addr / LINE
  }

  predicate InBounds(es: seq<Event>, lines: nat) {
    forall i :: 0 <= i < |es| ==> EventLine(es[i]) < lines
  }

  function Happen(m: Mem, e: Event): (m': Mem)
    requires Valid(m) && EventLine(e) < |m.dram|
    ensures Valid(m') && m'.sets == m.sets && |m'.dram| == |m.dram|
  {
    match e
    case Cpu(a) => Step(m, a)
    case Dma(addr, v) => m.(dram := m.dram[addr / LINE := m.dram[addr / LINE][addr % LINE := v]])
  }

  function Run(m: Mem, es: seq<Event>): (m': Mem)
    requires Valid(m) && InBounds(es, |m.dram|)
    ensures Valid(m') && m'.sets == m.sets && |m'.dram| == |m.dram|
    decreases |es|
  {
    if es == [] then m else Run(Happen(m, es[0]), es[1..])
  }

  /** The same events on a flat memory: DMA writes are stores. */
  function FlatHappen(f: seq<Line>, e: Event): (f': seq<Line>)
    requires EventLine(e) < |f|
    ensures |f'| == |f|
  {
    match e
    case Cpu(a) => FlatStep(f, a)
    case Dma(addr, v) => FlatStep(f, Store(addr, v))
  }

  function FlatRun(f: seq<Line>, es: seq<Event>): (f': seq<Line>)
    requires InBounds(es, |f|)
    ensures |f'| == |f|
    decreases |es|
  {
    if es == [] then f else FlatRun(FlatHappen(f, es[0]), es[1..])
  }

  // ----- what a byte of the flat memory holds

  function ByteAt(f: seq<Line>, x: nat): byte
    requires x / LINE < |f|
  {
    f[x / LINE][x % LINE]
  }

  /** An event that writes byte x: a store by the CPU, or the DMA. */
  predicate Writes(e: Event, x: nat) { if e.Cpu? then e.access.Store? && e.access.addr == x else e.addr == x }

  function Written(e: Event): byte
    requires e.Cpu? ==> e.access.Store?
  {
    if e.Cpu? then e.access.value else e.value
  }

  lemma HappenByte(f: seq<Line>, e: Event, x: nat)
    requires EventLine(e) < |f| && x / LINE < |f|
    ensures ByteAt(FlatHappen(f, e), x) == if Writes(e, x) then Written(e) else ByteAt(f, x)
  {
    var y := if e.Cpu? then e.access.addr else e.addr;
    assert y == x <==> y / LINE == x / LINE && y % LINE == x % LINE;
  }

  /** After any run a byte holds what was last written to it, and what it held before if nothing was. */
  lemma {:induction false} LastWritten(f: seq<Line>, es: seq<Event>, x: nat, k: int)
    requires InBounds(es, |f|) && x / LINE < |f| && -1 <= k < |es| && (k >= 0 ==> Writes(es[k], x))
    requires forall i :: k < i < |es| ==> !Writes(es[i], x)
    ensures ByteAt(FlatRun(f, es), x) == if k >= 0 then Written(es[k]) else ByteAt(f, x)
    decreases |es|
  {
    if es != [] {
      HappenByte(f, es[0], x);
      LastWritten(FlatHappen(f, es[0]), es[1..], x, if k >= 0 then k - 1 else -1);
    }
  }

  /** The discipline of a batch: the CPU stays off the lines of D, the DMA stays on them. */
  predicate Disciplined(es: seq<Event>, D: set<nat>) {
    forall i :: 0 <= i < |es| ==> (es[i].Dma? <==> EventLine(es[i]) in D)
  }

  /** The memory a batch is about: the CPU's view, with DRAM for the DMA's lines. */
  ghost function Meant(m: Mem, D: set<nat>): (f: seq<Line>)
    requires Valid(m)
    ensures |f| == |m.dram|
    ensures forall l :: 0 <= l < |f| ==> f[l] == if l in D then m.dram[l] else View(m, l)
  {
    seq(|m.dram|, l requires 0 <= l < |m.dram| => if l in D then m.dram[l] else View(m, l))
  }

  lemma HappenKeeps(m: Mem, e: Event, D: set<nat>)
    requires Shared(m, D) && EventLine(e) < |m.dram| && (e.Dma? <==> EventLine(e) in D)
    ensures Shared(Happen(m, e), D) && Meant(Happen(m, e), D) == FlatHappen(Meant(m, D), e)
  {
    match e
    case Cpu(a) =>
      StepKeeps(m, a, D);
    case Dma(addr, v) =>
  }

  /** Through any disciplined run nothing but the DMA's own bytes reaches the DMA's lines, and
      everything else is a flat memory. */
  lemma {:induction false} RunKeeps(m: Mem, es: seq<Event>, D: set<nat>)
    requires Shared(m, D) && InBounds(es, |m.dram|) && Disciplined(es, D)
    ensures Shared(Run(m, es), D) && Meant(Run(m, es), D) == FlatRun(Meant(m, D), es)
    decreases |es|
  {
    if es != [] {
      HappenKeeps(m, es[0], D);
      RunKeeps(Happen(m, es[0]), es[1..], D);
    }
  }

  /** With no DMA about, every run is a run of the flat memory. */
  lemma RunRefinesFlat(m: Mem, es: seq<Event>)
    requires Coherent(m) && InBounds(es, |m.dram|) && forall i :: 0 <= i < |es| ==> es[i].Cpu?
    ensures Coherent(Run(m, es)) && Flat(Run(m, es)) == FlatRun(Flat(m), es)
  {
    RunKeeps(m, es, {});
    assert Meant(m, {}) == Flat(m) && Meant(Run(m, es), {}) == Flat(Run(m, es));
  }

  // ----- lines out of the cache

  ghost predicate Absent(m: Mem, D: set<nat>) {
    Valid(m) && forall l :: l in D ==> !Resident(m, l)
  }

  /** When none of the DMA's lines is cached any more, the CPU reads what the DMA wrote, and
      from then on the whole memory is coherent. */
  lemma AbsentMeans(m: Mem, D: set<nat>)
    requires Shared(m, D) && Absent(m, D)
    ensures Coherent(m) && Flat(m) == Meant(m, D)
  {
    forall s | s in m.cache ensures m.cache[s].line !in D {
      assert Resident(m, m.cache[s].line);
    }
  }

  /** And in a coherent memory any set of absent lines can be handed to the DMA. */
  lemma AbsentHandsOver(m: Mem, D: set<nat>)
    requires Coherent(m) && Absent(m, D)
    ensures Shared(m, D) && Meant(m, D) == Flat(m)
  {
    forall s | s in m.cache ensures m.cache[s].line !in D {
      assert Resident(m, m.cache[s].line);
    }
  }

  lemma StepAbsent(m: Mem, a: Access, D: set<nat>)
    requires Absent(m, D) && a.addr / LINE < |m.dram| && a.addr / LINE !in D
    ensures Absent(Step(m, a), D)
  {
  }

  // ----- lines only read by the DMA

  /** A line that is not dirty and that nobody writes keeps its DRAM contents, whatever else is
      accessed: this is what an operand fetch relies on. */
  lemma HappenReadOnly(m: Mem, e: Event, l: nat)
    requires Valid(m) && l < |m.dram| && !Dirty(m, l) && EventLine(e) < |m.dram|
    requires EventLine(e) == l ==> e.Cpu? && e.access.Load?
    ensures !Dirty(Happen(m, e), l) && Happen(m, e).dram[l] == m.dram[l]
  {
  }

  lemma {:induction false} RunReadOnly(m: Mem, es: seq<Event>, l: nat)
    requires Valid(m) && l < |m.dram| && !Dirty(m, l) && InBounds(es, |m.dram|)
    requires forall i :: 0 <= i < |es| && EventLine(es[i]) == l ==> es[i].Cpu? && es[i].access.Load?
    ensures !Dirty(Run(m, es), l) && Run(m, es).dram[l] == m.dram[l]
    decreases |es|
  {
    if es != [] {
      HappenReadOnly(m, es[0], l);
      RunReadOnly(Happen(m, es[0]), es[1..], l);
    }
  }

  // ----- why the destination must not be dirty

  /** One destination line, overwritten by the DMA and then displaced by touching another line of
      its set: the CPU sees the DMA's data exactly if the line was not dirty (or equal anyway). */
  lemma DisplacedDestination(m: Mem, l: nat, w: Line, other: nat)
    requires Valid(m) && l < |m.dram| && other < |m.dram| && other != l && other % m.sets == l % m.sets
    requires View(m, l) != w
    ensures var after := Touch(m.(dram := m.dram[l := w]), other);
            View(after, l) == w <==> !Dirty(m, l)
  {
  }

  /** Why it must be displaced at all: a resident line hides what the DMA wrote behind it. */
  lemma ShadowedDestination(m: Mem, l: nat, w: Line)
    requires Valid(m) && l < |m.dram| && View(m, l) != w
    ensures View(m.(dram := m.dram[l := w]), l) == w <==> !Resident(m, l)
  {
  }
}
