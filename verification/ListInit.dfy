/** core_list_init and core_list_insert_new: building the list inside its memory block.
    `heads` and `datas` are the two areas of the block; memblock and datablock are indices. */
module ListInit {
  import opened ListCells
  import opened ListNodes
  import opened ListSort
  import opened ListOrders

  const HEAD: Cell := Cell(0x8080, 0x0000)
  const TAIL: Cell := Cell(0xffff, 0x7fff)

  function Low16(i: nat): bv16 { (i % 0x10000) as bv16 }

  /** The data word of the i-th inserted item. */
  function ItemData(i: nat, seed: bv16): (r: bv16)
    ensures Regenerated(r)
  {
    Doubled((((seed ^ Low16(i)) & 0xf) << 3) | (Low16(i) & 0x7))
  }

  function Doubled(dat: bv16): (r: bv16)
    requires dat & 0xff00 == 0
    ensures Regenerated(r)
  {
    (dat << 8) | dat
  }

  /** The index given to the node at position i >= 1 of the unsorted list. */
  function ItemIdx(i: nat, size: nat, seed: bv16): (r: int)
    ensures i < size / 5 ==> r == i
    ensures i >= size / 5 ==> 0 <= r <= 0x3fff
  {
    if i < size / 5 then i else Mixed(Low16(i), Low16(i + 1), seed) as int
  }

  /** The pseudo-random index of the items past the first fifth. */
  function Mixed(x: bv16, next: bv16, seed: bv16): (r: bv16)
    ensures r as int <= 0x3fff
  {
    0x3fff & (((next & 0x07) << 8) | (x ^ seed))
  }

  /** core_list_insert_new: place `info` in the next free cell behind `insertPoint`, unless the
      block is used up. */
  method InsertNew(insertPoint: ListHead, info: Cell, heads: seq<ListHead>, datas: seq<ListData>, mb0: nat, db0: nat)
    returns (ok: bool, mb: nat, db: nat)
    requires mb0 < |heads| && db0 < |datas| && insertPoint != heads[mb0]
    modifies insertPoint`next, heads[mb0], datas[db0]
    ensures ok <==> mb0 + 1 < |heads| && db0 + 1 < |datas|
    ensures ok ==> mb == mb0 + 1 && db == db0 + 1
    ensures ok ==> heads[mb0].next == old(insertPoint.next) && insertPoint.next == heads[mb0]
    ensures ok ==> heads[mb0].info == datas[db0] && Snapshot(datas[db0]) == info
    ensures !ok ==> mb == mb0 && db == db0 && unchanged(insertPoint, heads[mb0], datas[db0])
  {
    ok, mb, db := false, mb0, db0;
    if mb + 1 >= |heads| {
      return;
    }
    if db + 1 >= |datas| {
      return;
    }
    var newItem := heads[mb];
    mb := mb + 1;
    newItem.next := insertPoint.next;
    insertPoint.next := newItem;
    newItem.info := datas[db];
    db := db + 1;
    newItem.info.data16 := info.data16;
    newItem.info.idx := info.idx;
    ok := true;
  }

  /** The list after c - 1 insertions behind the head: the newest item comes second. */
  ghost function InsertOrder(c: nat): (r: seq<nat>)
    requires c >= 1
    ensures |r| == c && r[0] == 0 && forall p {:trigger r[p]} :: 1 <= p < c ==> r[p] == c - p
  {
    seq(c, p => if p == 0 then 0 else c - p)
  }

  lemma InsertOrderPermutation(c: nat)
    requires c >= 1
    ensures Permutation(InsertOrder(c), c)
  {
  }

  /** The first c cells of the block form the list, newest item second. */
  ghost predicate Built(heads: seq<ListHead>, datas: seq<ListData>, c: nat)
    reads heads
  {
    && |heads| == |datas| && 1 <= c <= |heads|
    && Distinct(heads) && Distinct(datas)
    && (forall j :: 0 <= j < c ==> heads[j].info == datas[j])
    && ListOf(Arrange(heads[..c], InsertOrder(c)), heads[0])
  }

  /** One insertion behind the list head. */
  method InsertSecond(info: Cell, heads: seq<ListHead>, datas: seq<ListData>, c0: nat)
    returns (c: nat)
    requires Built(heads, datas, c0) && c0 < |heads|
    modifies heads, datas[c0]
    ensures c == if c0 + 1 < |heads| then c0 + 1 else c0
    ensures Built(heads, datas, c)
    ensures c > c0 ==> Snapshot(datas[c0]) == info
    ensures c == c0 ==> Snapshot(datas[c0]) == old(Snapshot(datas[c0]))
  {
    assert Differ(heads, 0, c0);
    ghost var nx := Nexts(heads);
    BuiltNexts(heads, datas, c0);
    forall j: nat | j < |heads| && j != 0 && j != c0 ensures heads[j] != heads[0] && heads[j] != heads[c0] {
      assert Differ(heads, j, 0) && Differ(heads, j, c0);
    }
    var ok, mb, db := InsertNew(heads[0], info, heads, datas, c0, c0);
    c := mb;
    if ok {
      assert Nexts(heads) == nx[c0 := nx[0]][0 := heads[c0]];
      InsertedList(heads, nx, c0);
    }
  }

  /** The `next` fields `nx` link the first c cells, newest item second. */
  ghost predicate LinksFirst(heads: seq<ListHead>, nx: seq<ListHead?>, c: nat) {
    && 1 <= c <= |heads| == |nx|
    && forall p {:trigger InsertOrder(c)[p]} :: 0 <= p < c ==>
         nx[InsertOrder(c)[p]] == if p + 1 < c then heads[InsertOrder(c)[p + 1]] else null
  }

  lemma BuiltNexts(heads: seq<ListHead>, datas: seq<ListData>, c: nat)
    requires Built(heads, datas, c)
    ensures LinksFirst(heads, Nexts(heads), c)
  {
    var a := Arrange(heads[..c], InsertOrder(c));
    forall p | 0 <= p < c
      ensures Nexts(heads)[InsertOrder(c)[p]] == if p + 1 < c then heads[InsertOrder(c)[p + 1]] else null
    {
      assert a[p].next == if p + 1 < c then a[p + 1] else null;
    }
  }

  lemma InsertedList(heads: seq<ListHead>, nx: seq<ListHead?>, c: nat)
    requires LinksFirst(heads, nx, c) && c < |heads| && Nexts(heads) == nx[c := nx[0]][0 := heads[c]]
    ensures ListOf(Arrange(heads[..c + 1], InsertOrder(c + 1)), heads[0])
  {
    var a, o, o' := Arrange(heads[..c + 1], InsertOrder(c + 1)), InsertOrder(c), InsertOrder(c + 1);
    forall p | 0 <= p < |a| ensures a[p].next == if p + 1 < |a| then a[p + 1] else null {
      assert a[p].next == Nexts(heads)[o'[p]];
      if p >= 1 {
        assert nx[o[p - 1]] == if p < c then heads[o[p]] else null;
      }
    }
    assert o'[0] == 0 && a[0] == heads[0];
    assert ListOf(a, heads[0]);
  }

  /** The word of block cell j before indexing: head, tail, then the items. */
  function RawCell(j: nat, seed: bv16): Cell {
    if j == 0 then HEAD else if j == 1 then TAIL else Cell(ItemData(j - 2, seed), 0x7fff)
  }

  /** Creating the fake item at the head of the list. */
  method MakeHead(heads: seq<ListHead>, datas: seq<ListData>)
    requires |heads| == |datas| >= 4 && Distinct(heads) && Distinct(datas)
    modifies heads[0], datas[0]
    ensures Built(heads, datas, 1) && Snapshot(datas[0]) == HEAD
  {
    var list := heads[0];
    list.next := null;
    list.info := datas[0];
    list.info.idx := 0x0000;
    list.info.data16 := 0x8080;
    assert Arrange(heads[..1], InsertOrder(1)) == [list];
  }

  ghost predicate Raw(cells: seq<Cell>, c: nat, seed: bv16) {
    c <= |cells| && forall j :: 0 <= j < c ==> cells[j] == RawCell(j, seed)
  }

  /** Inserting one more item, seen from the words of the block. */
  method InsertItem(info: Cell, heads: seq<ListHead>, datas: seq<ListData>, c0: nat, ghost seed: bv16)
    returns (c: nat)
    requires Built(heads, datas, c0) && c0 < |heads| && Raw(Cells(datas), c0, seed)
    requires c0 + 1 < |heads| ==> info == RawCell(c0, seed)
    modifies heads, datas[c0]
    ensures c == if c0 + 1 < |heads| then c0 + 1 else c0
    ensures Built(heads, datas, c) && Raw(Cells(datas), c, seed)
  {
    forall j: nat | j < c0 ensures datas[j] != datas[c0] {
      assert Differ(datas, j, c0);
    }
    ghost var cells := Cells(datas);
    c := InsertSecond(info, heads, datas, c0);
    assert forall j :: 0 <= j < c0 ==> Cells(datas)[j] == cells[j];
  }

  /** Creating the two fake items and inserting items until the block is full. */
  method FillItems(seed: bv16, heads: seq<ListHead>, datas: seq<ListData>) returns (c: nat)
    requires |heads| == |datas| >= 4 && Distinct(heads) && Distinct(datas)
    modifies heads, datas
    ensures c == |heads| - 1 && Built(heads, datas, c) && Raw(Cells(datas), c, seed)
  {
    var size := |heads|;
    MakeHead(heads, datas);
    c := InsertItem(Cell(0xffff, 0x7fff), heads, datas, 1, seed);
    var i := 0;
    while i < size
      invariant 0 <= i <= size && c == Filled(i, size) && Built(heads, datas, c) && Raw(Cells(datas), c, seed)
    {
      c := InsertNth(i, seed, heads, datas, c);
      i := i + 1;
    }
  }

  /** The cells in use after i items. */
  function Filled(i: nat, size: nat): int { if 2 + i <= size - 1 then 2 + i else size - 1 }

  /** The i-th item. */
  method InsertNth(i: nat, seed: bv16, heads: seq<ListHead>, datas: seq<ListData>, c0: nat) returns (c: nat)
    requires |heads| >= 4 && Built(heads, datas, c0) && Raw(Cells(datas), c0, seed) && c0 == Filled(i, |heads|)
    modifies heads, datas
    ensures c == Filled(i + 1, |heads|) && Built(heads, datas, c) && Raw(Cells(datas), c, seed)
  {
    var info := MakeItem(i, seed);
    c := InsertItem(info, heads, datas, c0, seed);
  }

  /** Its word: the data alternate between the algorithms, and the upper byte is their backup. */
  method MakeItem(i: nat, seed: bv16) returns (info: Cell)
    ensures info == Cell(ItemData(i, seed), 0x7fff)
  {
    var x := Low16(i);
    var datpat := (seed ^ x) & 0xf;
    var dat := (datpat << 3) | (x & 0x7);
    info := Cell((dat << 8) | dat, 0x7fff);
  }

  /** The word at position p of the unsorted list of c nodes, after indexing. */
  function ListCell(p: nat, c: nat, size: nat, seed: bv16): Cell
    requires p < c
  {
    if p == 0 then HEAD else if p == c - 1 then TAIL else Cell(ItemData(c - p - 2, seed), ItemIdx(p, size, seed))
  }

  ghost function InitCells(c: nat, size: nat, seed: bv16): (r: seq<Cell>)
    ensures |r| == c && forall p :: 0 <= p < c ==> r[p] == ListCell(p, c, size, seed)
  {
    seq(c, p requires 0 <= p < c => ListCell(p, c, size, seed))
  }

  /** Giving one node its index. */
  method SetIdx(d: ListData, v: int, ghost infos: seq<ListData>, ghost i: nat)
    requires Distinct(infos) && i < |infos| && d == infos[i]
    modifies d`idx
    ensures Cells(infos) == old(Cells(infos))[i := Cell(old(d.data16), v)]
  {
    forall j: nat | j < |infos| && j != i ensures infos[j] != infos[i] {
      assert Differ(infos, j, i);
    }
    d.idx := v;
  }

  /** The words when the nodes before position i have been indexed. */
  ghost predicate Indexed(cells: seq<Cell>, i: nat, size: nat, seed: bv16) {
    && (forall p :: 0 <= p < i && p < |cells| ==> cells[p] == ListCell(p, |cells|, size, seed))
    && (forall p :: i <= p < |cells| ==> cells[p] == RawCell(|cells| - p, seed))
  }

  lemma IndexOne(cells: seq<Cell>, i: nat, size: nat, seed: bv16)
    requires Indexed(cells, i, size, seed) && 1 <= i < |cells| - 1
    ensures Indexed(cells[i := Cell(cells[i].data16, ItemIdx(i, size, seed))], i + 1, size, seed)
  {
    IndexedItem(i, |cells|, size, seed);
  }

  lemma IndexedItem(i: nat, c: nat, size: nat, seed: bv16)
    requires 1 <= i < c - 1
    ensures Cell(RawCell(c - i, seed).data16, ItemIdx(i, size, seed)) == ListCell(i, c, size, seed)
  {
  }

  /** The index of the next item: its position, or past the first fifth a pseudo-random number. */
  method MakeIdx(i: nat, size: nat, seed: bv16) returns (idx: int)
    ensures idx == ItemIdx(i, size, seed)
  {
    if i < size / 5 {
      idx := i;
    } else {
      var pat := Low16(i) ^ seed;
      var mixed := 0x3fff & (((Low16(i + 1) & 0x07) << 8) | pat);
      idx := mixed as int;
    }
  }

  /** Indexing the list from its second node on, the last one excepted. */
  method IndexItems(size: nat, seed: bv16, list: ListHead, ghost nodes: seq<ListHead>, ghost infos: seq<ListData>)
    requires |nodes| >= 3 && Carries(nodes, infos) && ListOf(nodes, list)
    requires Indexed(Cells(infos), 1, size, seed)
    modifies infos`idx
    ensures Cells(infos) == InitCells(|nodes|, size, seed)
  {
    assert nodes[0].next == nodes[1];
    var finder := list.next;
    var i := 1;
    while finder.next != null
      invariant 1 <= i < |nodes| && finder == nodes[i]
      invariant Indexed(Cells(infos), i, size, seed)
      decreases |nodes| - i
    {
      IndexOne(Cells(infos), i, size, seed);
      var idx := MakeIdx(i, size, seed);
      SetIdx(finder.info, idx, infos, i);
      finder, i := finder.next, i + 1;
    }
  }

  /** Stability keeps the head sentinel first and its index keeps the tail sentinel last. */
  lemma SentinelsStay(ranks: Ranking, order: seq<nat>)
    requires !ranks.cmp.Other? && |ranks.at| >= 2 && Permutation(order, |ranks.at|) && Sorted(ranks, order)
    requires forall p :: 0 <= p < |ranks.at| ==> ranks.at[0].key <= ranks.at[p].key
    requires forall p :: 0 <= p < |ranks.at| - 1 ==> ranks.at[p].key < ranks.at[|ranks.at| - 1].key
    ensures order[0] == 0 && order[|order| - 1] == |ranks.at| - 1
  {
    var n := |ranks.at|;
    Surjective(order, n, 0);
    Surjective(order, n, n - 1);
    var i :| 0 <= i < n && order[i] == 0;
    var j :| 0 <= j < n && order[j] == n - 1;
  }

  lemma InitRanks(c: nat, size: nat, seed: bv16, ranks: Ranking)
    requires c >= 3 && size / 5 <= 0x7fff && |ranks.at| == c
    requires forall p :: 0 <= p < c ==> ranks.at[p] == RankOf(ByIndex(true), InitCells(c, size, seed)[p])
    ensures forall p :: 0 <= p < c ==> ranks.at[0].key <= ranks.at[p].key && ranks.at[p].settled
    ensures forall p :: 0 <= p < c - 1 ==> ranks.at[p].key < ranks.at[c - 1].key
  {
    assert Regenerated(0x8080) && Regenerated(0xffff);
  }

  /** Regenerated words do not change any more. */
  lemma SettledCellsStay(cmp: Order, cells: seq<Cell>, cells': seq<Cell>)
    requires Evolves(cmp, cells, cells') && forall p :: 0 <= p < |cells| ==> Settled(cmp, cells[p])
    ensures cells' == cells
  {
    forall p | 0 <= p < |cells| ensures cells'[p] == cells[p] {
      assert CellEvolves(cmp, cells[p], cells'[p]);
    }
  }

  ghost predicate SortedInit(cells: seq<Cell>, c: nat, size: nat, seed: bv16, order: seq<nat>) {
    && Permutation(order, c) && cells == Arrange(InitCells(c, size, seed), order)
    && AscendingIdx(cells) && c >= 3 && order[0] == 0 && cells[0] == HEAD && cells[c - 1] == TAIL
    && forall i :: 0 <= i < c ==> Regenerated(cells[i].data16)
  }

  lemma InitOutcome(c: nat, size: nat, seed: bv16, ranks: Ranking, order: seq<nat>)
    requires c >= 3 && size / 5 <= 0x7fff && |ranks.at| == c && ranks.cmp == ByIndex(true)
    requires forall p :: 0 <= p < c ==> ranks.at[p] == RankOf(ByIndex(true), InitCells(c, size, seed)[p])
    requires Permutation(order, c) && Sorted(ranks, order)
    ensures SortedInit(Arrange(InitCells(c, size, seed), order), c, size, seed, order)
  {
    InitRanks(c, size, seed, ranks);
    SentinelsStay(ranks, order);
    IndexSorted(InitCells(c, size, seed), ranks, order);
    InitSentinels(c, size, seed);
  }

  lemma InitSentinels(c: nat, size: nat, seed: bv16)
    requires c >= 3
    ensures InitCells(c, size, seed)[0] == HEAD && InitCells(c, size, seed)[c - 1] == TAIL
  {
  }

  /** What a sort by index leaves, on values. */
  lemma IndexSorted(cells: seq<Cell>, ranks: Ranking, order: seq<nat>)
    requires ranks.cmp == ByIndex(true) && |ranks.at| == |cells|
    requires forall p :: 0 <= p < |cells| ==> ranks.at[p] == RankOf(ByIndex(true), cells[p]) && ranks.at[p].settled
    requires Permutation(order, |cells|) && Sorted(ranks, order)
    ensures AscendingIdx(Arrange(cells, order))
    ensures forall i :: 0 <= i < |order| ==> Regenerated(Arrange(cells, order)[i].data16)
  {
    var a := Arrange(cells, order);
    forall i, j | 0 <= i < j < |a| ensures a[i].idx <= a[j].idx {
      assert Before(ranks, order[i], order[j]);
    }
    forall i | 0 <= i < |order| ensures Regenerated(a[i].data16) {
      assert ranks.at[order[i]].settled;
    }
  }

  /** The final sort of core_list_init. */
  method SortInitial(size: nat, seed: bv16, list0: ListHead, ghost raw: seq<ListHead>, ghost rawInfos: seq<ListData>)
    returns (list: ListHead, ghost order: seq<nat>)
    requires |raw| >= 3 && size / 5 <= 0x7fff
    requires Carries(raw, rawInfos) && ListOf(raw, list0) && Cells(rawInfos) == InitCells(|raw|, size, seed)
    modifies raw`next, rawInfos`data16
    ensures Carries(raw, rawInfos) && Permutation(order, |raw|)
    ensures ListOf(Arrange(raw, order), list)
    ensures Cells(rawInfos) == InitCells(|raw|, size, seed)
    ensures SortedInit(Arrange(Cells(rawInfos), order), |raw|, size, seed, order)
  {
    ghost var calls, cells := 0, Cells(rawInfos);
    InitRanks(|raw|, size, seed, Ranks(ByIndex(true), rawInfos));
    assert forall p :: 0 <= p < |raw| ==> Settled(ByIndex(true), cells[p]);
    list, order, calls := MergeSort(list0, ByIndex(true), null, raw, rawInfos);
    SettledCellsStay(ByIndex(true), cells, Cells(rawInfos));
    InitOutcome(|raw|, size, seed, Ranks(ByIndex(true), rawInfos), order);
  }

  lemma DistinctPrefix<T>(s: seq<T>, c: nat)
    requires Distinct(s) && c <= |s|
    ensures Distinct(s[..c])
  {
    forall i: nat, j: nat | i < c && j < c && i != j ensures Differ(s[..c], i, j) {
      assert Differ(s, i, j);
    }
  }

  lemma RawIndexed(cells: seq<Cell>, c: nat, size: nat, seed: bv16)
    requires 3 <= c <= |cells| && Raw(cells, c, seed)
    ensures Indexed(Arrange(cells[..c], InsertOrder(c)), 1, size, seed)
  {
  }

  /** Building and indexing: the list before its final sort. */
  method BuildIndexed(seed: bv16, heads: seq<ListHead>, datas: seq<ListData>)
    returns (ghost raw: seq<ListHead>, ghost rawInfos: seq<ListData>)
    requires |heads| == |datas| >= 4 && Distinct(heads) && Distinct(datas)
    modifies heads, datas
    ensures |raw| == |rawInfos| == |heads| - 1 && Carries(raw, rawInfos) && ListOf(raw, heads[0])
    ensures forall i :: 0 <= i < |raw| ==> raw[i] in heads && rawInfos[i] in datas
    ensures Cells(rawInfos) == InitCells(|raw|, |heads|, seed)
  {
    var c := FillItems(seed, heads, datas);
    InsertOrderPermutation(c);
    raw, rawInfos := Arrange(heads[..c], InsertOrder(c)), Arrange(datas[..c], InsertOrder(c));
    DistinctPrefix(heads, c);
    DistinctPrefix(datas, c);
    ArrangeDistinct(heads[..c], InsertOrder(c));
    ArrangeDistinct(datas[..c], InsertOrder(c));
    RawIndexed(Cells(datas), c, |heads|, seed);
    assert Cells(rawInfos) == Arrange(Cells(datas)[..c], InsertOrder(c));
    IndexItems(|heads|, seed, heads[0], raw, rawInfos);
  }

  /** core_list_init. */
  method Init(blksize: nat, seed: bv16, heads: seq<ListHead>, datas: seq<ListData>)
    returns (list: ListHead, ghost nodes: seq<ListHead>, ghost infos: seq<ListData>, ghost order: seq<nat>)
    requires blksize >= 120 && |heads| == |datas| == blksize / 20 - 2 && |heads| / 5 <= 0x7fff
    requires Distinct(heads) && Distinct(datas)
    modifies heads, datas
    ensures |nodes| == |infos| == blksize / 20 - 3 && (forall i :: 0 <= i < |nodes| ==> nodes[i] in heads && infos[i] in datas)
    ensures Carries(nodes, infos) && ListOf(nodes, list)
    ensures SortedInit(Cells(infos), |nodes|, |heads|, seed, order)
  {
    var raw, rawInfos := BuildIndexed(seed, heads, datas);
    list, order := SortInitial(|heads|, seed, heads[0], raw, rawInfos);
    nodes, infos := Arrange(raw, order), Arrange(rawInfos, order);
    ArrangeDistinct(raw, order);
    ArrangeDistinct(rawInfos, order);
    assert Cells(infos) == Arrange(Cells(rawInfos), order);
  }
}
