/** When core_bench_list restores its list, and the iterations that rely on it. */
module ListRestore {
  import opened ListCells
  import opened ListNodes
  import opened ListSort
  import opened ListOps
  import opened ListOrders
  import opened ListBench
  import Crc16

  // ----- the index sort and the original order

  /** No two words of equal index stand in `order` the other way round than originally. */
  ghost predicate Uninverted(cells: seq<Cell>, order: seq<nat>)
    requires InRange(order, |cells|)
  {
    forall a, b :: 0 <= a < b < |order| && order[a] > order[b] ==> cells[order[a]].idx != cells[order[b]].idx
  }

  /** Two entries of a stable index sort. */
  lemma StablePair(cells: seq<Cell>, order2: seq<nat>, perm: seq<nat>, order3: seq<nat>, i: nat, j: nat)
    requires StableSorted(ByIndex(true), cells, order2, perm, order3) && i < j < |cells|
    ensures perm[i] < |cells| && perm[j] < |cells| && perm[i] != perm[j]
    ensures order3[i] == order2[perm[i]] && order3[j] == order2[perm[j]]
    ensures cells[order3[i]].idx <= cells[order3[j]].idx
    ensures cells[order3[i]].idx == cells[order3[j]].idx ==> perm[i] < perm[j]
  {
    assert Differ(perm, i, j);
    var words := Arrange(cells, order2);
    assert Before(RanksOf(ByIndex(true), words), perm[i], perm[j]);
    assert words[perm[i]] == cells[order3[i]] && words[perm[j]] == cells[order3[j]];
  }

  lemma RestoredIf(cells: seq<Cell>, order2: seq<nat>, perm: seq<nat>, order3: seq<nat>)
    requires StableSorted(ByIndex(true), cells, order2, perm, order3) && Shuffle(order2, |cells|)
    requires AscendingIdx(cells) && Uninverted(cells, order2)
    ensures order3 == Identity(|cells|)
  {
    forall i, j | 0 <= i < j < |order3| ensures order3[i] < order3[j] {
      StablePair(cells, order2, perm, order3, i, j);
      assert Differ(order2, perm[i], perm[j]);
    }
    forall i | 0 <= i < |order3| ensures order3[i] == i {
      IncreasingIsIdentity(order3, i);
    }
  }

  lemma RestoredOnlyIf(cells: seq<Cell>, order2: seq<nat>, perm: seq<nat>, order3: seq<nat>)
    requires StableSorted(ByIndex(true), cells, order2, perm, order3) && Shuffle(order2, |cells|)
    requires order3 == Identity(|cells|)
    ensures AscendingIdx(cells) && Uninverted(cells, order2)
  {
    forall i, j | 0 <= i < j < |cells| ensures cells[i].idx <= cells[j].idx {
      StablePair(cells, order2, perm, order3, i, j);
    }
    forall a, b | 0 <= a < b < |order2| && order2[a] > order2[b]
      ensures cells[order2[a]].idx != cells[order2[b]].idx
    {
      var x, y := order2[a], order2[b];
      StablePair(cells, order2, perm, order3, y, x);
      assert perm[x] != a ==> Differ(order2, perm[x], a);
      assert perm[y] != b ==> Differ(order2, perm[y], b);
    }
  }

  /** The list is back in its original order exactly if it was in ascending index order and no two words of
      equal index were the wrong way round before the index sort. */
  lemma RestoredIff(r: Record, cells: seq<Cell>, finderIdx: int, n: nat)
    requires Recorded(r, cells, finderIdx, n)
    ensures r.order3 == Identity(|cells|) <==> AscendingIdx(cells) && Uninverted(cells, r.order2)
  {
    var regen := RegenAll(cells);
    SameIdx(cells, r.order2);
    if AscendingIdx(cells) && Uninverted(cells, r.order2) {
      RestoredIf(regen, r.order2, r.perm3, r.order3);
    }
    if r.order3 == Identity(|cells|) {
      RestoredOnlyIf(regen, r.order2, r.perm3, r.order3);
    }
  }

  lemma SameIdx(cells: seq<Cell>, order: seq<nat>)
    requires InRange(order, |cells|)
    ensures AscendingIdx(cells) <==> AscendingIdx(RegenAll(cells))
    ensures Uninverted(cells, order) <==> Uninverted(RegenAll(cells), order)
  {
    var regen := RegenAll(cells);
    assert forall i :: 0 <= i < |cells| ==> regen[i].idx == cells[i].idx;
  }

  // ----- a condition the caller can check

  ghost predicate IdxDistinct(cells: seq<Cell>) {
    forall i, j :: 0 <= i < j < |cells| ==> cells[i].idx != cells[j].idx
  }

  /** Strictly ascending indices are enough for every finder_idx and every number of searches. */
  lemma DistinctRestores(r: Record, cells: seq<Cell>, finderIdx: int, n: nat)
    requires Recorded(r, cells, finderIdx, n) && IncreasingIdx(cells)
    ensures r.order3 == Identity(|cells|)
  {
    RestoredIff(r, cells, finderIdx, n);
  }

  /** The index the next search looks for, after n searches. */
  function IdxAfter(idx: int, n: nat): int {
    if n == 0 then idx
    else
      var i := IdxAfter(idx, n - 1);
      if i >= 0 then Next16(i) else i
  }

  /** n turns of a step on orders, the i-th with the index and the data byte of the i-th search. */
  ghost function Fold(step: (seq<nat>, int, int) -> seq<nat>, start: seq<nat>, idx: int, n: nat): seq<nat> {
    if n == 0 then start else step(Fold(step, start, idx, n - 1), IdxAfter(idx, n - 1), LowByteOf(n - 1))
  }

  /** A trace whose turns follow a step is a fold of it. */
  ghost predicate Follows(step: (seq<nat>, int, int) -> seq<nat>, orders: seq<seq<nat>>, idxs: seq<int>) {
    && |orders| == |idxs| >= 1
    && forall i: nat {:trigger FollowsAt(step, orders, idxs, i)} :: i + 1 < |orders| ==> FollowsAt(step, orders, idxs, i)
  }

  ghost predicate FollowsAt(step: (seq<nat>, int, int) -> seq<nat>, orders: seq<seq<nat>>, idxs: seq<int>, i: nat)
    requires i + 1 < |orders| == |idxs|
  {
    && orders[i + 1] == step(orders[i], idxs[i], LowByteOf(i))
    && idxs[i + 1] == if idxs[i] >= 0 then Next16(idxs[i]) else idxs[i]
  }

  lemma {:induction false} FollowsFold(step: (seq<nat>, int, int) -> seq<nat>, orders: seq<seq<nat>>, idxs: seq<int>, i: nat)
    requires Follows(step, orders, idxs) && i < |orders|
    ensures orders[i] == Fold(step, orders[0], idxs[0], i) && idxs[i] == IdxAfter(idxs[0], i)
  {
    if i > 0 {
      FollowsFold(step, orders, idxs, i - 1);
      assert FollowsAt(step, orders, idxs, i - 1);
    }
  }

  /** One search, as a step on orders. */
  ghost function OrderStep(cells: seq<Cell>): (seq<nat>, int, int) -> seq<nat> {
    (order: seq<nat>, idx: int, data16: int) =>
      if InRange(order, |cells|) && |order| == |cells| then Searched(order, FirstIn(Arrange(cells, order), idx, data16)) else order
  }

  /** The list order after n searches, from the words alone. */
  ghost function OrderAfter(cells: seq<Cell>, idx: int, n: nat): seq<nat> { Fold(OrderStep(cells), Identity(|cells|), idx, n) }

  /** The indices the searches of a run look for. */
  ghost function Idxs(counts: seq<Counts>): (r: seq<int>)
    ensures |r| == |counts| && forall i :: 0 <= i < |counts| ==> r[i] == counts[i].idx
  {
    seq(|counts|, i requires 0 <= i < |counts| => counts[i].idx)
  }

  lemma TraceFollows(cells: seq<Cell>, orders: seq<seq<nat>>, counts: seq<Counts>)
    requires Trace(cells, orders, counts)
    ensures Follows(OrderStep(cells), orders, Idxs(counts))
  {
    forall i: nat | i + 1 < |orders| ensures FollowsAt(OrderStep(cells), orders, Idxs(counts), i) {
      var ok := TurnOk(cells, orders, counts, i);
      assert ok;
    }
  }

  /** The searches of every run lead to that order. */
  lemma TraceOrder(cells: seq<Cell>, orders: seq<seq<nat>>, counts: seq<Counts>, idx: int, n: nat)
    requires Searches(cells, Identity(|cells|), idx, n, orders, counts)
    ensures orders[n] == OrderAfter(cells, idx, n)
  {
    TraceFollows(cells, orders, counts);
    FollowsFold(OrderStep(cells), orders, Idxs(counts), n);
  }

  /** Without a data sort, so for every finder_idx up to 0 and every number of searches: what decides can be
      computed from the words before the call. */
  lemma RestoredIffWords(r: Record, cells: seq<Cell>, finderIdx: int, n: nat)
    requires Recorded(r, cells, finderIdx, n) && finderIdx <= 0
    ensures r.order2 == OrderAfter(cells, finderIdx, n) && InRange(OrderAfter(cells, finderIdx, n), |cells|)
    ensures r.order3 == Identity(|cells|) <==> AscendingIdx(cells) && Uninverted(cells, OrderAfter(cells, finderIdx, n))
  {
    TraceOrder(cells, r.orders, r.counts, finderIdx, n);
    RestoredIff(r, cells, finderIdx, n);
  }

  /** A single search that hits the first word or none, and no data sort. */
  ghost predicate HeadOrMiss(cells: seq<Cell>, finderIdx: int) {
    finderIdx <= 0 && var k := FirstIn(cells, finderIdx, LowByteOf(0)); k == 0 || k == |cells|
  }

  /** In particular a search for index 0, when the first word has it. */
  lemma HeadHit(cells: seq<Cell>)
    requires cells != [] && cells[0].idx == 0
    ensures HeadOrMiss(cells, 0)
  {
  }

  /** Then the list is exactly reversed before the index sort. */
  lemma OnceReversed(r: Record, cells: seq<Cell>, finderIdx: int)
    requires Recorded(r, cells, finderIdx, 1) && |cells| >= 2 && HeadOrMiss(cells, finderIdx)
    ensures r.order2 == Reversed(Identity(|cells|))
  {
    assert TurnOk(cells, r.orders, r.counts, 0);
    assert Arrange(cells, Identity(|cells|)) == cells;
  }

  /** So it is restored exactly if it was in ascending order and the indices are pairwise different. */
  lemma OnceIff(r: Record, cells: seq<Cell>, finderIdx: int)
    requires Recorded(r, cells, finderIdx, 1) && |cells| >= 2 && HeadOrMiss(cells, finderIdx)
    ensures r.order3 == Identity(|cells|) <==> AscendingIdx(cells) && IdxDistinct(cells)
  {
    OnceReversed(r, cells, finderIdx);
    RestoredIff(r, cells, finderIdx, 1);
    var n := |cells|;
    if Uninverted(cells, r.order2) {
      forall i, j | 0 <= i < j < n ensures cells[i].idx != cells[j].idx {
        assert r.order2[n - 1 - j] == j && r.order2[n - 1 - i] == i;
      }
    }
  }

  /** The worse case: when the first two words have the same index, the original head ends up behind the
      second node, so the chain from res->list has lost a node. */
  lemma HeadBehind(r: Record, cells: seq<Cell>, finderIdx: int)
    requires Recorded(r, cells, finderIdx, 1) && |cells| >= 2 && HeadOrMiss(cells, finderIdx)
    requires cells[0].idx == cells[1].idx
    ensures r.order3[0] != 0
  {
    OnceReversed(r, cells, finderIdx);
    var n, regen := |cells|, RegenAll(cells);
    var j := PositionOf(r.perm3, n, n - 2);
    if j > 0 {
      StablePair(regen, r.order2, r.perm3, r.order3, 0, j);
    }
  }

  // ----- the iterations

  /** A list in strict index order whose data bytes equal their backups. */
  ghost predicate Pristine(cells: seq<Cell>) {
    IncreasingIdx(cells) && AllSettled(ByIndex(true), cells)
  }

  ghost predicate Fit(nodes: seq<ListHead>, infos: seq<ListData>, list: ListHead?)
    reads nodes, infos
  {
    Ready(nodes, infos, list) && Pristine(Cells(infos))
  }

  /** core_bench_list on a fit list: the list is back to its original state. */
  method BenchFit(res: Results, finderIdx: int, ghost nodes: seq<ListHead>, ghost infos: seq<ListData>, ghost cells: seq<Cell>)
    returns (retval: Crc16.Word, ghost r: Record)
    requires Fit(nodes, infos, res.list) && Cells(infos) == cells
    modifies nodes, infos`data16, res
    ensures Fit(nodes, infos, res.list) && Cells(infos) == cells
    ensures Recorded(r, cells, finderIdx, Rounds(res.seed3)) && Shaped(r, cells, Rounds(res.seed3))
    ensures retval == Outcome(r, cells, Rounds(res.seed3))
    ensures finderIdx <= 0 ==> res.crc == old(res.crc)
  {
    RegenAllIff(cells);
    retval, r := BenchList(res, finderIdx, nodes, infos);
    DistinctRestores(r, cells, finderIdx, Rounds(res.seed3));
  }

  /** One call of core_bench_list: its record, and the running CRC before and after its result is folded in. */
  datatype Call = Call(run: Record, before: Crc16.Word, after: Crc16.Word)

  ghost predicate Folds(c: Call, cells: seq<Cell>, finderIdx: int, n: nat) {
    && Recorded(c.run, cells, finderIdx, n) && Shaped(c.run, cells, n)
    && c.after == Crc16.Register(Outcome(c.run, cells, n), c.before)
  }

  /** One benchmark call, its result folded into the running CRC. */
  method BenchFold(res: Results, finderIdx: int, ghost nodes: seq<ListHead>, ghost infos: seq<ListData>, ghost cells: seq<Cell>)
    returns (ghost c: Call)
    requires Fit(nodes, infos, res.list) && Cells(infos) == cells
    modifies nodes, infos`data16, res
    ensures Fit(nodes, infos, res.list) && Cells(infos) == cells
    ensures Folds(c, cells, finderIdx, Rounds(res.seed3)) && res.crc == c.after
    ensures finderIdx <= 0 ==> c.before == old(res.crc)
  {
    var crc;
    ghost var r;
    crc, r := BenchFit(res, finderIdx, nodes, infos, cells);
    ghost var before := res.crc;
    var after := Crc16.Crcu16Calls(crc, res.crc);
    SetCrc(res, after, nodes, infos, cells);
    c := FoldOf(r, cells, finderIdx, Rounds(res.seed3), before, after);
  }

  method SetCrc(res: Results, crc: Crc16.Word, ghost nodes: seq<ListHead>, ghost infos: seq<ListData>, ghost cells: seq<Cell>)
    requires Fit(nodes, infos, res.list) && Cells(infos) == cells
    modifies res
    ensures Fit(nodes, infos, res.list) && Cells(infos) == cells && res.crc == crc
  {
    res.crc := crc;
  }

  lemma FoldOf(r: Record, cells: seq<Cell>, finderIdx: int, n: nat, before: Crc16.Word, after: Crc16.Word) returns (c: Call)
    requires Recorded(r, cells, finderIdx, n) && Shaped(r, cells, n) && after == Crc16.Register(Outcome(r, cells, n), before)
    ensures Folds(c, cells, finderIdx, n) && c.before == before && c.after == after
  {
    c := Call(r, before, after);
  }

  method ResetCrc(res: Results, ghost nodes: seq<ListHead>, ghost infos: seq<ListData>)
    requires Fit(nodes, infos, res.list)
    modifies res
    ensures Fit(nodes, infos, res.list) && Cells(infos) == old(Cells(infos))
    ensures res.crc == Crc16.Zeros(16) && res.crcmatrix == res.crcstate == 0
  {
    res.crc := Crc16.Zeros(16);
    res.crcmatrix, res.crcstate := 0, 0;
  }

  /** A round of iterate: a call with finder_idx 1 and one with -1.  The second sorts nothing by data, so it finds the
      running CRC as the first one left it. */
  datatype Pair = Pair(first: Call, second: Call)

  ghost predicate RoundFolds(p: Pair, cells: seq<Cell>, n: nat) {
    Folds(p.first, cells, 1, n) && Folds(p.second, cells, -1, n) && p.second.before == p.first.after
  }

  ghost predicate All<T(!new)>(ok: T -> bool, s: seq<T>) { forall k :: 0 <= k < |s| ==> ok(s[k]) }

  lemma AllGrows<T(!new)>(ok: T -> bool, s: seq<T>, x: T)
    requires All(ok, s) && ok(x)
    ensures All(ok, s + [x])
  {
  }

  ghost function RoundCheck(cells: seq<Cell>, n: nat): Pair -> bool { p => RoundFolds(p, cells, n) }

  /** One round. */
  method Round(res: Results, ghost nodes: seq<ListHead>, ghost infos: seq<ListData>, ghost cells: seq<Cell>)
    returns (ghost p: Pair)
    requires Fit(nodes, infos, res.list) && Cells(infos) == cells
    modifies nodes, infos`data16, res
    ensures Fit(nodes, infos, res.list) && Cells(infos) == cells
    ensures RoundCheck(cells, Rounds(res.seed3))(p) && res.crc == p.second.after
  {
    ghost var c := BenchFold(res, 1, nodes, infos, cells);
    ghost var d := BenchFold(res, -1, nodes, infos, cells);
    p := Pair(c, d);
  }

  /** The running CRC after some rounds. */
  ghost function RunningCrc(rounds: seq<Pair>): Crc16.Word {
    if rounds == [] then Crc16.Zeros(16) else rounds[|rounds| - 1].second.after
  }

  ghost function FirstCrc(rounds: seq<Pair>): Crc16.Word {
    if rounds == [] then Crc16.Zeros(16) else rounds[0].second.after
  }

  lemma CrcsGrow(rounds: seq<Pair>, p: Pair)
    ensures RunningCrc(rounds + [p]) == p.second.after
    ensures FirstCrc(rounds + [p]) == if rounds == [] then p.second.after else FirstCrc(rounds)
  {
  }

  /** What iterate has done after some rounds. */
  ghost predicate Logged(ok: Pair -> bool, rounds: seq<Pair>, i: nat, crc: Crc16.Word, crclist: Crc16.Word) {
    |rounds| == i && All(ok, rounds) && crc == RunningCrc(rounds) && crclist == FirstCrc(rounds)
  }

  lemma LoggedGrows(ok: Pair -> bool, rounds: seq<Pair>, i: nat, crc: Crc16.Word, crclist: Crc16.Word, p: Pair)
    requires Logged(ok, rounds, i, crc, crclist) && ok(p)
    ensures Logged(ok, rounds + [p], i + 1, p.second.after, if i == 0 then p.second.after else crclist)
  {
    AllGrows(ok, rounds, p);
    CrcsGrow(rounds, p);
  }

  /** iterate: any number of rounds leave the list as core_list_init built it, every call's result is folded into the
      running CRC, and crclist is the running CRC after the first round. */
  method Iterate(res: Results, iterations: nat, ghost nodes: seq<ListHead>, ghost infos: seq<ListData>, ghost cells: seq<Cell>)
    returns (crclist: Crc16.Word, ghost rounds: seq<Pair>)
    requires Fit(nodes, infos, res.list) && Cells(infos) == cells
    modifies nodes, infos`data16, res
    ensures Fit(nodes, infos, res.list) && Cells(infos) == cells
    ensures Logged(RoundCheck(cells, Rounds(res.seed3)), rounds, iterations, res.crc, crclist)
  {
    ResetCrc(res, nodes, infos);
    crclist, rounds := Crc16.Zeros(16), [];
    ghost var ok := RoundCheck(cells, Rounds(res.seed3));
    var i := 0;
    while i < iterations
      invariant 0 <= i <= iterations && Logged(ok, rounds, i, res.crc, crclist)
      invariant Fit(nodes, infos, res.list) && Cells(infos) == cells
    {
      ghost var crc := res.crc;
      ghost var p := Round(res, nodes, infos, cells);
      LoggedGrows(ok, rounds, i, crc, crclist, p);
      if i == 0 {
        crclist := res.crc;
      }
      rounds, i := rounds + [p], i + 1;
    }
  }
}
