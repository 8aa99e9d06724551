/** Initialisation and iterations together: when the benchmark's list survives every run. */
module ListRun {
  import opened ListCells
  import opened ListNodes
  import opened ListSort
  import opened ListOrders
  import opened ListInit
  import opened ListBench
  import opened ListRestore

  /** The initial list is fit for core_bench_list exactly when the generated indices do not collide. */
  lemma PristineIffDistinct(cells: seq<Cell>, c: nat, size: nat, seed: bv16, order: seq<nat>)
    requires SortedInit(cells, c, size, seed, order)
    ensures Pristine(cells) <==> IdxDistinct(InitCells(c, size, seed))
  {
    if IdxDistinct(InitCells(c, size, seed)) {
      DistinctIsPristine(cells, c, size, seed, order);
    }
    if Pristine(cells) {
      PristineIsDistinct(cells, c, size, seed, order);
    }
  }

  lemma DistinctIsPristine(cells: seq<Cell>, c: nat, size: nat, seed: bv16, order: seq<nat>)
    requires SortedInit(cells, c, size, seed, order) && IdxDistinct(InitCells(c, size, seed))
    ensures Pristine(cells)
  {
    var init := InitCells(c, size, seed);
    forall i, j | 0 <= i < j < c ensures cells[i].idx < cells[j].idx {
      assert order[i] != order[j];
      if order[i] < order[j] {
        assert init[order[i]].idx != init[order[j]].idx;
      } else {
        assert init[order[j]].idx != init[order[i]].idx;
      }
    }
    forall i | 0 <= i < c ensures Settled(ByIndex(true), cells[i]) {
    }
  }

  lemma PristineIsDistinct(cells: seq<Cell>, c: nat, size: nat, seed: bv16, order: seq<nat>)
    requires SortedInit(cells, c, size, seed, order) && Pristine(cells)
    ensures IdxDistinct(InitCells(c, size, seed))
  {
    var init := InitCells(c, size, seed);
    forall i, j | 0 <= i < j < c ensures init[i].idx != init[j].idx {
      Surjective(order, c, i);
      Surjective(order, c, j);
      var a :| 0 <= a < c && order[a] == i;
      var b :| 0 <= b < c && order[b] == j;
      assert if a < b then cells[a].idx < cells[b].idx else cells[b].idx < cells[a].idx;
    }
  }

  lemma InitFits(nodes: seq<ListHead>, infos: seq<ListData>, list: ListHead, size: nat, seed: bv16, order: seq<nat>)
    requires Carries(nodes, infos) && ListOf(nodes, list)
    requires SortedInit(Cells(infos), |nodes|, size, seed, order) && IdxDistinct(InitCells(|nodes|, size, seed))
    ensures Fit(nodes, infos, list)
  {
    DistinctIsPristine(Cells(infos), |nodes|, size, seed, order);
  }

  /** core_list_init followed by any number of iterations: the list is what init built. */
  method Run(blksize: nat, seed: bv16, seed3: int, answers: nat -> bv16, iterations: nat,
             heads: seq<ListHead>, datas: seq<ListData>)
    returns (list: ListHead, ghost nodes: seq<ListHead>, ghost infos: seq<ListData>, ghost order: seq<nat>)
    requires blksize >= 120 && |heads| == |datas| == blksize / 20 - 2 && |heads| / 5 <= 0x7fff
    requires Distinct(heads) && Distinct(datas)
    requires IdxDistinct(InitCells(blksize / 20 - 3, blksize / 20 - 2, seed))
    modifies heads, datas
    ensures |nodes| == |infos| == blksize / 20 - 3 && Carries(nodes, infos) && ListOf(nodes, list)
    ensures SortedInit(Cells(infos), |nodes|, |heads|, seed, order)
  {
    list, nodes, infos, order := Init(blksize, seed, heads, datas);
    InitFits(nodes, infos, list, |heads|, seed, order);
    Benchmark(list, seed3, answers, iterations, nodes, infos);
  }

  /** Any number of iterations from fresh results. */
  method Benchmark(list: ListHead, seed3: int, answers: nat -> bv16, iterations: nat,
                   ghost nodes: seq<ListHead>, ghost infos: seq<ListData>)
    requires Fit(nodes, infos, list)
    modifies nodes, infos
    ensures Fit(nodes, infos, list) && Cells(infos) == old(Cells(infos))
  {
    var res := new Results(seed3, list, answers);
    var crclist, rounds := Iterate(res, iterations, nodes, infos, Cells(infos));
  }

  /** One call with finder_idx 0 and a single search, on the list core_list_init built: the list is
      restored exactly if the generated indices do not collide.  For every seed and block size. */
  method BenchOnce(blksize: nat, seed: bv16, answers: nat -> bv16, heads: seq<ListHead>, datas: seq<ListData>)
    returns (res: Results, ghost nodes: seq<ListHead>, ghost infos: seq<ListData>, ghost order: seq<nat>, ghost r: Record)
    requires blksize >= 120 && |heads| == |datas| == blksize / 20 - 2 && |heads| / 5 <= 0x7fff
    requires Distinct(heads) && Distinct(datas)
    modifies heads, datas
    ensures |nodes| == |infos| == blksize / 20 - 3 && Carries(nodes, infos)
    ensures SortedInit(Cells(infos), |nodes|, |heads|, seed, order) && Recorded(r, Cells(infos), 0, 1)
    ensures Holds(nodes, infos, r.order3, nodes[r.order3[0]]) && res.list == nodes[0]
    ensures ListOf(nodes, res.list) <==> IdxDistinct(InitCells(|nodes|, |heads|, seed))
  {
    var list;
    list, nodes, infos, order := Init(blksize, seed, heads, datas);
    InitSettled(Cells(infos), |nodes|, |heads|, seed, order);
    res := new Results(1, list, answers);
    r := BenchFirst(res, nodes, infos, Cells(infos));
    RestoredIffSeed(Cells(infos), |nodes|, |heads|, seed, order, r);
  }

  method BenchFirst(res: Results, ghost nodes: seq<ListHead>, ghost infos: seq<ListData>, ghost cells: seq<Cell>)
    returns (ghost r: Record)
    requires Ready(nodes, infos, res.list) && res.seed3 == 1 && Cells(infos) == cells == RegenAll(cells)
    modifies nodes, infos`data16, res
    ensures Carries(nodes, infos) && Cells(infos) == cells && Recorded(r, cells, 0, 1)
    ensures Holds(nodes, infos, r.order3, nodes[r.order3[0]]) && res.list == nodes[0]
    ensures ListOf(nodes, res.list) <==> r.order3 == Identity(|nodes|)
  {
    assert res.list == nodes[0];
    var retval;
    retval, r := BenchList(res, 0, nodes, infos);
  }

  lemma InitSettled(cells: seq<Cell>, c: nat, size: nat, seed: bv16, order: seq<nat>)
    requires SortedInit(cells, c, size, seed, order)
    ensures cells == RegenAll(cells)
  {
    RegenAllIff(cells);
  }

  lemma RestoredIffSeed(cells: seq<Cell>, c: nat, size: nat, seed: bv16, order: seq<nat>, r: Record)
    requires SortedInit(cells, c, size, seed, order) && Recorded(r, cells, 0, 1)
    ensures r.order3 == Identity(c) <==> IdxDistinct(InitCells(c, size, seed))
  {
    HeadHit(cells);
    OnceIff(r, cells, 0);
    PristineIffDistinct(cells, c, size, seed, order);
    StrictIff(cells);
    InitSettled(cells, c, size, seed, order);
    RegenAllIff(cells);
  }

  lemma StrictIff(cells: seq<Cell>)
    requires AscendingIdx(cells)
    ensures IncreasingIdx(cells) <==> IdxDistinct(cells)
  {
  }

  /** An inner item with index 0 ends up second in the sorted list, behind the head sentinel. */
  lemma ZeroSecond(cells: seq<Cell>, c: nat, size: nat, seed: bv16, order: seq<nat>, p: nat)
    requires SortedInit(cells, c, size, seed, order) && 1 <= p < c && InitCells(c, size, seed)[p].idx == 0
    ensures |cells| >= 3 && cells[0].idx == cells[1].idx == 0
  {
    Surjective(order, c, p);
    var j :| 0 <= j < c && order[j] == p;
    assert cells[j].idx == 0 && cells[0].idx == 0;
  }

  /** Then a single search leaves the head sentinel behind that item: what res->list points to is no longer
      the first node. */
  lemma HeadLost(cells: seq<Cell>, r: Record)
    requires Recorded(r, cells, 0, 1) && |cells| >= 3 && cells[0].idx == cells[1].idx == 0
    ensures r.order3[0] != 0
  {
    HeadHit(cells);
    HeadBehind(r, cells, 0);
  }

  // ----- seeds that break the promise

  /** Some seeds do collide: with seed 6 positions 1 and 7 of a 20-cell block share index 1. */
  lemma SeedSixCollides()
    ensures !IdxDistinct(InitCells(19, 20, 6))
  {
    var cells := InitCells(19, 20, 6);
    assert cells[1].idx == 1;
    assert Mixed(7, 8, 6) == 1;
    assert cells[7].idx == ItemIdx(7, 20, 6) == 1;
  }

  /** So with seed 6 and 20 cells a single search for index 0 leaves the list in another order. */
  lemma SeedSixBreaks(cells: seq<Cell>, order: seq<nat>, r: Record)
    requires SortedInit(cells, 19, 20, 6, order) && Recorded(r, cells, 0, 1)
    ensures r.order3 != Identity(19)
  {
    SeedSixCollides();
    RestoredIffSeed(cells, 19, 20, 6, order, r);
  }

  lemma SeedSevenZero(size: nat, seed: bv16)
    requires 10 <= size <= 39 && seed == 7
    ensures InitCells(size - 1, size, seed)[7].idx == 0
  {
    assert Mixed(7, 8, 7) == 0;
    assert ItemIdx(7, size, 7) == 0;
  }

  lemma SeedSevenSecond(cells: seq<Cell>, size: nat, seed: bv16, order: seq<nat>)
    requires 10 <= size <= 39 && seed == 7 && SortedInit(cells, size - 1, size, seed, order)
    ensures |cells| >= 3 && cells[0].idx == cells[1].idx == 0
  {
    SeedSevenZero(size, seed);
    ZeroSecond(cells, size - 1, size, seed, order, 7);
  }

  /** And with seed 7 and 10 to 39 cells the list loses a node: position 7 gets index 0. */
  lemma SeedSevenLosesNode(cells: seq<Cell>, size: nat, seed: bv16, order: seq<nat>, r: Record)
    requires 10 <= size <= 39 && seed == 7
    requires SortedInit(cells, size - 1, size, seed, order) && Recorded(r, cells, 0, 1)
    ensures r.order3[0] != 0
  {
    SeedSevenSecond(cells, size, seed, order);
    HeadLost(cells, r);
  }
}
