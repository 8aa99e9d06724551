/** The direct-mapped write-back data cache over DRAM (src/dcache_bram.v), as values.
    Memory is counted in cache lines of LINE bytes. */
module DCache {

  const LINE: nat := 16

  newtype byte = x: int | 0 <= x < 256

  type Line = s: seq<byte> | |s| == LINE witness seq(LINE, i => 0)

  datatype Entry = Entry(line: nat, dirty: bool, data: Line)

  /** `sets` is the hardware's NUM_SETS; set s of the cache is empty when s is no key. */
  datatype Mem = Mem(sets: nat, dram: seq<Line>, cache: map<nat, Entry>)

  ghost predicate Valid(m: Mem) {
    && m.sets > 0
    && forall s :: s in m.cache ==> m.cache[s].line < |m.dram| && m.cache[s].line % m.sets == s
  }

  predicate Resident(m: Mem, l: nat)
    requires m.sets > 0
  {
    l % m.sets in m.cache && m.cache[l % m.sets].line == l
  }

  predicate Dirty(m: Mem, l: nat)
    requires m.sets > 0
  {
    Resident(m, l) && m.cache[l % m.sets].dirty
  }

  /** What the CPU reads: the cached line if there is one, else DRAM. */
  function View(m: Mem, l: nat): Line
    requires m.sets > 0 && l < |m.dram|
  {
    if Resident(m, l) then m.cache[l % m.sets].data else m.dram[l]
  }

  /** S_CAP, S_WB: the line in set s, if dirty, goes back to DRAM. */
  function WriteBack(m: Mem, s: nat): (d: seq<Line>)
    requires s in m.cache ==> m.cache[s].line < |m.dram|
    ensures |d| == |m.dram|
  {
    if s in m.cache && m.cache[s].dirty then m.dram[m.cache[s].line := m.cache[s].data] else m.dram
  }

  /** Bringing line l in: nothing on a hit; on a miss write the victim back and refill. */
  function Touch(m: Mem, l: nat): (m': Mem)
    requires Valid(m) && l < |m.dram|
    ensures Valid(m') && m'.sets == m.sets && |m'.dram| == |m.dram|
    ensures Resident(m', l)
  {
    if Resident(m, l) then m
    else
      var s, d := l % m.sets, WriteBack(m, l % m.sets);
      Mem(m.sets, d, m.cache[s := Entry(l, false, d[l])])
  }

  datatype Access = Load(addr: nat) | Store(addr: nat, value: byte)

  /** A CPU access; stores hit after the refill and mark the line dirty. */
  function Step(m: Mem, a: Access): (m': Mem)
    requires Valid(m) && a.addr / LINE < |m.dram|
    ensures Valid(m') && m'.sets == m.sets && |m'.dram| == |m.dram|
  {
    var l := a.addr / LINE;
    var t := Touch(m, l);
    match a
    case Load(_) => t
    case Store(addr, v) =>
      var e := t.cache[l % t.sets];
      t.(cache := t.cache[l % t.sets := Entry(l, true, e.data[addr % LINE := v])])
  }

  // ----- the flat memory it stands for

  function Flat(m: Mem): (f: seq<Line>)
    requires Valid(m)
    ensures |f| == |m.dram| && forall l :: 0 <= l < |f| ==> f[l] == View(m, l)
  {
    seq(|m.dram|, l requires 0 <= l < |m.dram| => View(m, l))
  }

  function FlatStep(f: seq<Line>, a: Access): (f': seq<Line>)
    requires a.addr / LINE < |f|
    ensures |f'| == |f|
  {
    match a
    case Load(_) => f
    case Store(addr, v) => f[addr / LINE := f[addr / LINE][addr % LINE := v]]
  }

  /** The lines of D belong to a DMA agent: they are never dirty.  All other clean lines match DRAM. */
  ghost predicate Shared(m: Mem, D: set<nat>) {
    && Valid(m)
    && forall s :: s in m.cache ==>
         var e := m.cache[s];
         (e.line in D ==> !e.dirty) && (e.line !in D && !e.dirty ==> e.data == m.dram[e.line])
  }

  /** Clean lines match DRAM. */
  ghost predicate Coherent(m: Mem) { Shared(m, {}) }

  /** One fill: the CPU's view outside D and the DRAM inside D stay as they were. */
  lemma TouchKeeps(m: Mem, l: nat, D: set<nat>)
    requires Shared(m, D) && l < |m.dram| && l !in D
    ensures Shared(Touch(m, l), D)
    ensures forall k: nat :: k < |m.dram| && k !in D ==> View(Touch(m, l), k) == View(m, k)
    ensures forall k: nat :: k < |m.dram| && k in D ==> Touch(m, l).dram[k] == m.dram[k]
  {
  }

  /** A CPU access is a flat-memory access outside D and leaves DRAM inside D alone. */
  lemma StepKeeps(m: Mem, a: Access, D: set<nat>)
    requires Shared(m, D) && a.addr / LINE < |m.dram| && a.addr / LINE !in D
    ensures Shared(Step(m, a), D)
    ensures forall k: nat :: k < |m.dram| && k !in D ==> View(Step(m, a), k) == FlatStep(Flat(m), a)[k]
    ensures forall k: nat :: k < |m.dram| && k in D ==> Step(m, a).dram[k] == m.dram[k]
  {
    TouchKeeps(m, a.addr / LINE, D);
  }

  /** The cache over DRAM is the flat memory: no access changes a byte the CPU can see, but a
      store to that byte. */
  lemma StepRefinesFlat(m: Mem, a: Access)
    requires Coherent(m) && a.addr / LINE < |m.dram|
    ensures Coherent(Step(m, a)) && Flat(Step(m, a)) == FlatStep(Flat(m), a)
  {
    StepKeeps(m, a, {});
  }
}
