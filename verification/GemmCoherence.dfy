/** The data side of gemm_run_batch (zephyr/drivers/misc/gemm_rv32_5stage.c): what the
    accelerator fetches and what the CPU reads afterwards, for every interleaving of the batch
    with other CPU activity. */
module GemmCoherence {
  import opened DCache
  import opened DCacheRuns
  import opened Displace

  const EINVAL := -22

  datatype Pointer = Null | At(addr: nat)

  datatype Tile = Tile(aSrc: Pointer, bSrc: Pointer, dest: Pointer, kLen: nat, bOnly: bool, srcCoherent: bool)

  ghost function Lines(p: Pointer, bytes: nat): set<nat> {
    if p.Null? then {} else LinesOf(p.addr, bytes)
  }

  /** The operand lines the accelerator reads from DRAM for a tile. */
  ghost function Fetched(t: Tile, dim: nat): set<nat> {
    (if t.bOnly then {} else Lines(t.aSrc, dim * t.kLen)) + Lines(t.bSrc, dim * t.kLen)
  }

  ghost function AllFetched(tiles: seq<Tile>, dim: nat): (r: set<nat>)
    ensures forall t :: t in tiles ==> Fetched(t, dim) <= r
  {
    if tiles == [] then {} else Fetched(tiles[0], dim) + AllFetched(tiles[1..], dim)
  }

  ghost function AllDests(tiles: seq<Tile>, bytes: nat): (r: set<nat>)
    ensures forall t :: t in tiles ==> Lines(t.dest, bytes) <= r
  {
    if tiles == [] then {} else Lines(tiles[0].dest, bytes) + AllDests(tiles[1..], bytes)
  }

  ghost predicate NoneDirty(m: Mem, X: set<nat>) {
    Valid(m) && forall l: nat :: l in X ==> !Dirty(m, l)
  }

  /** A walk does not dirty lines it stays off. */
  lemma WalkNoneDirty(before: Mem, after: Mem, log: seq<Event>, D: set<nat>, X: set<nat>, noise: nat -> seq<Access>)
    requires Walked(before, after, log, D, noise) && X <= D && NoneDirty(before, X)
    requires forall l :: l in X ==> l < |before.dram|
    ensures NoneDirty(after, X)
  {
    forall l: nat | l in X ensures !Dirty(after, l) {
      RunReadOnly(before, log, l);
    }
  }

  lemma WalkTwice(m0: Mem, m1: Mem, m2: Mem, a: seq<Event>, b: seq<Event>, D: set<nat>, noise: nat -> seq<Access>)
    requires Walked(m0, m1, a, D, noise) && Walked(m1, m2, b, D, noise)
    ensures Walked(m0, m2, a + b, D, noise)
  {
    RunAppend(m0, a, b);
  }

  lemma WalkNowhere(m: Mem, D: set<nat>, noise: nat -> seq<Access>)
    requires Valid(m)
    ensures Walked(m, m, [], D, noise)
  {
  }

  ghost predicate InDram(m: Mem, D: set<nat>) {
    forall l :: l in D ==> l < |m.dram|
  }

  /** sys_cache_data_flush_range on a pointer that may be NULL.  `clean` collects the lines known
      not to be dirty. */
  method FlushPointer(soc: Soc, p: Pointer, bytes: nat, noise: nat -> seq<Access>, ghost D: set<nat>, ghost clean: set<nat>)
    returns (ghost log: seq<Event>, ghost clean': set<nat>)
    requires soc.Ok() && soc.OffBuffer(D) && Quiet(noise, D, |soc.mem.dram|) && InDram(soc.mem, D)
    requires Lines(p, bytes) <= D && clean <= D && NoneDirty(soc.mem, clean)
    modifies soc`mem, soc`turn
    ensures soc.turn >= old(soc.turn)
    ensures soc.Ok() && Walked(old(soc.mem), soc.mem, log, D, noise)
    ensures clean' == clean + Lines(p, bytes) && NoneDirty(soc.mem, clean')
  {
    log, clean' := [], clean + Lines(p, bytes);
    WalkNowhere(soc.mem, D, noise);
    if p.At? {
      log := soc.DisplaceRange(p.addr, bytes, noise, D);
      WalkNoneDirty(old(soc.mem), soc.mem, log, D, clean, noise);
    }
  }

  /** The part of a tile's operands that gemm_run_batch flushes: B always, A unless it is declared
      coherent or not refetched. */
  ghost function Flushed(t: Tile, dim: nat): set<nat> {
    (if t.srcCoherent || t.bOnly then {} else Lines(t.aSrc, dim * t.kLen)) + Lines(t.bSrc, dim * t.kLen)
  }

  method FlushTile(soc: Soc, t: Tile, dim: nat, noise: nat -> seq<Access>, ghost D: set<nat>, ghost clean: set<nat>)
    returns (ghost log: seq<Event>, ghost clean': set<nat>)
    requires soc.Ok() && soc.OffBuffer(D) && Quiet(noise, D, |soc.mem.dram|) && InDram(soc.mem, D)
    requires Flushed(t, dim) <= D && clean <= D && NoneDirty(soc.mem, clean)
    modifies soc`mem, soc`turn
    ensures soc.turn >= old(soc.turn)
    ensures soc.Ok() && Walked(old(soc.mem), soc.mem, log, D, noise)
    ensures clean' == clean + Flushed(t, dim) && NoneDirty(soc.mem, clean')
  {
    var bytes := dim * t.kLen;
    log, clean' := [], clean;
    WalkNowhere(soc.mem, D, noise);
    if t.srcCoherent {
    } else if !t.bOnly && t.aSrc.At? {
      log, clean' := FlushPointer(soc, t.aSrc, bytes, noise, D, clean);
    }
    ghost var m1, log2 := soc.mem, [];
    if t.bSrc.At? {
      log2, clean' := FlushPointer(soc, t.bSrc, bytes, noise, D, clean');
    } else {
      WalkNowhere(soc.mem, D, noise);
    }
    WalkTwice(old(soc.mem), m1, soc.mem, log, log2, D, noise);
    log := log + log2;
  }

  /** The operand loop of gemm_run_batch. */
  method FlushTiles(soc: Soc, tiles: seq<Tile>, dim: nat, noise: nat -> seq<Access>, ghost D: set<nat>, ghost clean: set<nat>)
    returns (ghost log: seq<Event>, ghost clean': set<nat>)
    requires soc.Ok() && soc.OffBuffer(D) && Quiet(noise, D, |soc.mem.dram|) && InDram(soc.mem, D)
    requires (forall t :: t in tiles ==> Flushed(t, dim) <= D) && clean <= D && NoneDirty(soc.mem, clean)
    modifies soc`mem, soc`turn
    ensures soc.turn >= old(soc.turn)
    ensures soc.Ok() && Walked(old(soc.mem), soc.mem, log, D, noise)
    ensures clean <= clean' <= D && NoneDirty(soc.mem, clean')
    ensures forall t :: t in tiles ==> Flushed(t, dim) <= clean'
  {
    log, clean' := [], clean;
    WalkNowhere(soc.mem, D, noise);
    for i := 0 to |tiles|
      invariant soc.turn >= old(soc.turn)
      invariant soc.Ok() && Walked(old(soc.mem), soc.mem, log, D, noise)
      invariant clean <= clean' <= D && NoneDirty(soc.mem, clean')
      invariant forall j :: 0 <= j < i ==> Flushed(tiles[j], dim) <= clean'
    {
      ghost var m1, log1 := soc.mem, [];
      assert tiles[i] in tiles;
      log1, clean' := FlushTile(soc, tiles[i], dim, noise, D, clean');
      WalkTwice(old(soc.mem), m1, soc.mem, log, log1, D, noise);
      log := log + log1;
    }
  }

  ghost function Operands(t: Tile, dim: nat): set<nat> {
    Lines(t.aSrc, dim * t.kLen) + Lines(t.bSrc, dim * t.kLen)
  }

  method FlushBoth(soc: Soc, t: Tile, dim: nat, noise: nat -> seq<Access>, ghost D: set<nat>, ghost clean: set<nat>)
    returns (ghost log: seq<Event>, ghost clean': set<nat>)
    requires soc.Ok() && soc.OffBuffer(D) && Quiet(noise, D, |soc.mem.dram|) && InDram(soc.mem, D)
    requires Operands(t, dim) <= D && clean <= D && NoneDirty(soc.mem, clean)
    modifies soc`mem, soc`turn
    ensures soc.turn >= old(soc.turn)
    ensures soc.Ok() && Walked(old(soc.mem), soc.mem, log, D, noise)
    ensures clean' == clean + Operands(t, dim) && NoneDirty(soc.mem, clean')
  {
    var bytes := dim * t.kLen;
    log, clean' := FlushPointer(soc, t.aSrc, bytes, noise, D, clean);
    ghost var m1, log2 := soc.mem, [];
    log2, clean' := FlushPointer(soc, t.bSrc, bytes, noise, D, clean');
    WalkTwice(old(soc.mem), m1, soc.mem, log, log2, D, noise);
    log := log + log2;
  }

  ghost function AllOperands(tiles: seq<Tile>, dim: nat): (r: set<nat>)
    ensures forall t :: t in tiles ==> Operands(t, dim) <= r
  {
    if tiles == [] then {} else Operands(tiles[0], dim) + AllOperands(tiles[1..], dim)
  }

  lemma PrefixOperands(tiles: seq<Tile>, dim: nat, i: nat)
    requires i < |tiles|
    ensures AllOperands(tiles[i..], dim) == Operands(tiles[i], dim) + AllOperands(tiles[i + 1..], dim)
  {
    assert tiles[i..][1..] == tiles[i + 1..];
  }

  /** Both operands of one more tile. */
  method FlushNext(soc: Soc, t: Tile, dim: nat, noise: nat -> seq<Access>, ghost D: set<nat>, ghost clean: set<nat>,
                   ghost m0: Mem, ghost log0: seq<Event>)
    returns (ghost log: seq<Event>)
    requires soc.Ok() && soc.OffBuffer(D) && Quiet(noise, D, |soc.mem.dram|) && InDram(soc.mem, D)
    requires Walked(m0, soc.mem, log0, D, noise) && Operands(t, dim) <= D && clean <= D && NoneDirty(soc.mem, clean)
    modifies soc`mem, soc`turn
    ensures soc.turn >= old(soc.turn)
    ensures soc.Ok() && Walked(m0, soc.mem, log, D, noise) && InDram(soc.mem, D)
    ensures NoneDirty(soc.mem, clean + Operands(t, dim))
  {
    ghost var m1, log1, clean1 := soc.mem, [], {};
    log1, clean1 := FlushBoth(soc, t, dim, noise, D, clean);
    WalkTwice(m0, m1, soc.mem, log0, log1, D, noise);
    log := log0 + log1;
  }

  /** gemm_flush_operands: both operands of every tile reach DRAM. */
  method FlushOperands(soc: Soc, tiles: seq<Tile>, dim: nat, noise: nat -> seq<Access>, ghost D: set<nat>)
    returns (rc: int, ghost log: seq<Event>)
    requires soc.Ok() && soc.OffBuffer(D) && Quiet(noise, D, |soc.mem.dram|) && InDram(soc.mem, D)
    requires AllOperands(tiles, dim) <= D
    modifies soc`mem, soc`turn
    ensures soc.turn >= old(soc.turn)
    ensures rc == (if tiles == [] then EINVAL else 0)
    ensures soc.Ok() && Walked(old(soc.mem), soc.mem, log, D, noise)
    ensures NoneDirty(soc.mem, AllOperands(tiles, dim))
  {
    log, rc := [], 0;
    WalkNowhere(soc.mem, D, noise);
    if tiles == [] {
      rc := EINVAL;
      return;
    }
    ghost var clean: set<nat> := {};
    for i := 0 to |tiles|
      invariant soc.turn >= old(soc.turn)
      invariant soc.Ok() && Walked(old(soc.mem), soc.mem, log, D, noise) && InDram(soc.mem, D)
      invariant clean <= D && NoneDirty(soc.mem, clean) && clean + AllOperands(tiles[i..], dim) == AllOperands(tiles, dim)
    {
      PrefixOperands(tiles, dim, i);
      log := FlushNext(soc, tiles[i], dim, noise, D, clean, old(soc.mem), log);
      clean := clean + Operands(tiles[i], dim);
    }
  }

  /** One more destination leaves the cache, and those that left before stay out. */
  method DisplacePointer(soc: Soc, p: Pointer, bytes: nat, noise: nat -> seq<Access>, ghost D: set<nat>, ghost gone: set<nat>,
                         ghost m0: Mem, ghost log0: seq<Event>)
    returns (ghost log: seq<Event>)
    requires soc.Ok() && soc.OffBuffer(D) && Quiet(noise, D, |soc.mem.dram|) && Walked(m0, soc.mem, log0, D, noise)
    requires Lines(p, bytes) <= D && gone <= D && Absent(soc.mem, gone)
    modifies soc`mem, soc`turn
    ensures soc.turn >= old(soc.turn)
    ensures soc.Ok() && Walked(m0, soc.mem, log, D, noise)
    ensures Absent(soc.mem, gone + Lines(p, bytes))
  {
    log := log0;
    if p.At? {
      ghost var m1, log1 := soc.mem, [];
      log1 := soc.DisplaceRange(p.addr, bytes, noise, D);
      RunAbsent(m1, log1, gone);
      WalkTwice(m0, m1, soc.mem, log0, log1, D, noise);
      log := log0 + log1;
    }
  }

  lemma PrefixDests(tiles: seq<Tile>, bytes: nat, i: nat)
    requires i < |tiles|
    ensures AllDests(tiles[i..], bytes) == Lines(tiles[i].dest, bytes) + AllDests(tiles[i + 1..], bytes)
  {
    assert tiles[i..][1..] == tiles[i + 1..];
  }

  /** The destination loop of gemm_run_batch: every destination leaves the cache. */
  method DisplaceDests(soc: Soc, tiles: seq<Tile>, tileBytes: nat, noise: nat -> seq<Access>, ghost D: set<nat>)
    returns (ghost log: seq<Event>)
    requires soc.Ok() && soc.OffBuffer(D) && Quiet(noise, D, |soc.mem.dram|) && AllDests(tiles, tileBytes) <= D
    modifies soc`mem, soc`turn
    ensures soc.turn >= old(soc.turn)
    ensures soc.Ok() && Walked(old(soc.mem), soc.mem, log, D, noise)
    ensures Absent(soc.mem, AllDests(tiles, tileBytes))
  {
    log := [];
    WalkNowhere(soc.mem, D, noise);
    ghost var gone: set<nat> := {};
    for i := 0 to |tiles|
      invariant soc.turn >= old(soc.turn)
      invariant soc.Ok() && Walked(old(soc.mem), soc.mem, log, D, noise)
      invariant gone <= D && Absent(soc.mem, gone) && gone + AllDests(tiles[i..], tileBytes) == AllDests(tiles, tileBytes)
    {
      PrefixDests(tiles, tileBytes, i);
      log := DisplacePointer(soc, tiles[i].dest, tileBytes, noise, D, gone, old(soc.mem), log);
      gone := gone + Lines(tiles[i].dest, tileBytes);
    }
  }

  /** A line that is not dirty in a coherent memory reads the same from DRAM as from the CPU. */
  lemma CleanReadsThrough(m: Mem, l: nat)
    requires Coherent(m) && l < |m.dram| && !Dirty(m, l)
    ensures m.dram[l] == View(m, l)
  {
  }

  lemma HandOver(m: Mem, Dest: set<nat>)
    requires Coherent(m) && NoneDirty(m, Dest) && InDram(m, Dest)
    ensures Shared(m, Dest) && Meant(m, Dest) == Flat(m)
  {
    forall s | s in m.cache && m.cache[s].line in Dest ensures !m.cache[s].dirty {
      assert !Dirty(m, m.cache[s].line);
    }
    forall l: nat | l in Dest ensures m.dram[l] == View(m, l) {
      CleanReadsThrough(m, l);
    }
  }

  /** The events between the kick and the completion of a batch: DMA writes go to the destinations,
      and the CPU neither touches those nor writes an operand. */
  ghost predicate BatchEvents(es: seq<Event>, Fetch: set<nat>, Dest: set<nat>, lines: nat) {
    && InBounds(es, lines) && Disciplined(es, Dest)
    && forall i :: 0 <= i < |es| && EventLine(es[i]) in Fetch ==> es[i].Cpu? && es[i].access.Load?
  }

  /** At every moment of the batch the accelerator's fetch of an operand line finds what the CPU saw
      there when the batch was submitted. */
  lemma FetchSeesCpuView(m0: Mem, m1: Mem, log1: seq<Event>, es: seq<Event>, D: set<nat>, Fetch: set<nat>, Dest: set<nat>,
                         noise: nat -> seq<Access>, l: nat, j: nat)
    requires Coherent(m0) && Walked(m0, m1, log1, D, noise) && Fetch <= D && InDram(m0, D)
    requires NoneDirty(m1, Fetch) && BatchEvents(es, Fetch, Dest, |m1.dram|)
    requires l in Fetch && j <= |es|
    ensures InBounds(es[..j], |m1.dram|) && Run(m1, es[..j]).dram[l] == View(m0, l)
  {
    RunRefinesFlat(m0, log1);
    FlatRunOff(Flat(m0), log1, l);
    assert Flat(m1)[l] == View(m1, l) == View(m0, l);
    CleanReadsThrough(m1, l);
    RunReadOnly(m1, es[..j], l);
  }

  /** After the batch the memory is the flat memory on which the DMA writes happened as stores: every
      CPU read of a destination returns the DMA's byte, now and, the memory being coherent, later. */
  lemma ResultsReachCpu(m0: Mem, m1: Mem, m3: Mem, log1: seq<Event>, es: seq<Event>, log3: seq<Event>,
                        D: set<nat>, Fetch: set<nat>, Dest: set<nat>, noise1: nat -> seq<Access>, noise3: nat -> seq<Access>)
    requires Coherent(m0) && InDram(m0, D) && NoneDirty(m0, Dest) && Dest <= D
    requires Walked(m0, m1, log1, D, noise1) && BatchEvents(es, Fetch, Dest, |m1.dram|)
    requires Walked(Run(m1, es), m3, log3, D, noise3) && Absent(m3, Dest)
    ensures Coherent(m3) && InBounds(log1 + es + log3, |m0.dram|)
    ensures Flat(m3) == FlatRun(Flat(m0), log1 + es + log3)
  {
    RunRefinesFlat(m0, log1);
    WalkNoneDirty(m0, m1, log1, D, Dest, noise1);
    HandOver(m1, Dest);
    RunKeeps(m1, es, Dest);
    RunKeeps(Run(m1, es), log3, Dest);
    AbsentMeans(m3, Dest);
    FlatRunAppend(Flat(m0), log1, es);
    FlatRunAppend(Flat(m0), log1 + es, log3);
  }

  ghost predicate FetchesSee(kicked: Mem, es: seq<Event>, Fetch: set<nat>, m0: Mem) {
    && Valid(kicked) && Valid(m0) && |kicked.dram| == |m0.dram| && InBounds(es, |m0.dram|) && InDram(m0, Fetch)
    && forall j, l: nat {:trigger Run(kicked, es[..j]).dram[l]} :: 0 <= j <= |es| && l in Fetch ==>
         Run(kicked, es[..j]).dram[l] == View(m0, l)
  }

  lemma AllFetchesSee(m0: Mem, m1: Mem, log1: seq<Event>, es: seq<Event>, D: set<nat>, Fetch: set<nat>, Dest: set<nat>,
                      noise: nat -> seq<Access>)
    requires Coherent(m0) && Walked(m0, m1, log1, D, noise) && Fetch <= D && InDram(m0, D)
    requires NoneDirty(m1, Fetch) && BatchEvents(es, Fetch, Dest, |m1.dram|)
    ensures FetchesSee(m1, es, Fetch, m0)
  {
    forall j, l: nat | 0 <= j <= |es| && l in Fetch ensures Run(m1, es[..j]).dram[l] == View(m0, l) {
      FetchSeesCpuView(m0, m1, log1, es, D, Fetch, Dest, noise, l, j);
    }
  }

  /** Everything up to the kick: afterwards no line the accelerator will fetch is dirty. */
  method Submit(soc: Soc, tiles: seq<Tile>, dim: nat, noise: nat -> seq<Access>, ghost D: set<nat>)
    returns (ghost log: seq<Event>)
    requires soc.Ok() && soc.OffBuffer(D) && InDram(soc.mem, D) && Quiet(noise, D, |soc.mem.dram|)
    requires AllFetched(tiles, dim) <= D
    requires forall t :: t in tiles && t.srcCoherent && !t.bOnly ==> NoneDirty(soc.mem, Lines(t.aSrc, dim * t.kLen))
    modifies soc`mem, soc`turn
    ensures soc.turn >= old(soc.turn)
    ensures soc.Ok() && Walked(old(soc.mem), soc.mem, log, D, noise)
    ensures NoneDirty(soc.mem, AllFetched(tiles, dim))
  {
    ghost var clean;
    assert forall t :: t in tiles ==> Flushed(t, dim) <= Fetched(t, dim);
    HonestClean(soc.mem, tiles, dim, D);
    log, clean := FlushTiles(soc, tiles, dim, noise, D, CoherentSources(tiles, dim));
    AllFetchedClean(tiles, dim, clean);
  }

  /** gemm_run_batch, as far as data goes: operand flushes, the batch itself with whatever happens
      meanwhile, and the displacement of the destinations. */
  method RunBatch(soc: Soc, tiles: seq<Tile>, dim: nat, tileBytes: nat, es: seq<Event>,
                  noise1: nat -> seq<Access>, noise3: nat -> seq<Access>,
                  ghost D: set<nat>, ghost Fetch: set<nat>, ghost Dest: set<nat>)
    returns (ghost kicked: Mem, ghost log1: seq<Event>, ghost log3: seq<Event>)
    requires soc.Ok() && Coherent(soc.mem) && soc.OffBuffer(D) && InDram(soc.mem, D)
    requires Quiet(noise1, D, |soc.mem.dram|) && Quiet(noise3, D, |soc.mem.dram|)
    requires Fetch == AllFetched(tiles, dim) && Dest == AllDests(tiles, tileBytes)
    requires Fetch <= D && Dest <= D
    requires NoneDirty(soc.mem, Dest)
    requires forall t :: t in tiles && t.srcCoherent && !t.bOnly ==> NoneDirty(soc.mem, Lines(t.aSrc, dim * t.kLen))
    requires BatchEvents(es, Fetch, Dest, |soc.mem.dram|)
    modifies soc`mem, soc`turn
    ensures soc.turn >= old(soc.turn)
    ensures soc.Ok() && FetchesSee(kicked, es, Fetch, old(soc.mem))
    ensures Coherent(soc.mem) && InBounds(log1 + es + log3, |old(soc.mem).dram|)
    ensures Flat(soc.mem) == FlatRun(Flat(old(soc.mem)), log1 + es + log3)
    ensures Allowed(log1, D, noise1) && Allowed(log3, D, noise3)
  {
    ghost var m0 := soc.mem;
    log1 := Submit(soc, tiles, dim, noise1, D);
    kicked := soc.mem;
    AllFetchesSee(m0, kicked, log1, es, D, Fetch, Dest, noise1);
    soc.mem := Run(soc.mem, es);
    log3 := DisplaceDests(soc, tiles, tileBytes, noise3, D);
    ResultsReachCpu(m0, kicked, soc.mem, log1, es, log3, D, Fetch, Dest, noise1, noise3);
  }

  /** The A operands that are fetched without a flush. */
  ghost function CoherentSources(tiles: seq<Tile>, dim: nat): set<nat> {
    if tiles == [] then {}
    else (if tiles[0].srcCoherent && !tiles[0].bOnly then Lines(tiles[0].aSrc, dim * tiles[0].kLen) else {})
         + CoherentSources(tiles[1..], dim)
  }

  lemma {:induction false} HonestClean(m: Mem, tiles: seq<Tile>, dim: nat, D: set<nat>)
    requires Valid(m) && AllFetched(tiles, dim) <= D
    requires forall t :: t in tiles && t.srcCoherent && !t.bOnly ==> NoneDirty(m, Lines(t.aSrc, dim * t.kLen))
    ensures NoneDirty(m, CoherentSources(tiles, dim)) && CoherentSources(tiles, dim) <= D
  {
    if tiles != [] {
      HonestClean(m, tiles[1..], dim, D);
    }
  }

  lemma {:induction false} AllFetchedClean(tiles: seq<Tile>, dim: nat, clean: set<nat>)
    requires CoherentSources(tiles, dim) <= clean && forall t :: t in tiles ==> Flushed(t, dim) <= clean
    ensures AllFetched(tiles, dim) <= clean
  {
    if tiles != [] {
      assert tiles[0] in tiles;
      AllFetchedClean(tiles[1..], dim, clean);
    }
  }
}
