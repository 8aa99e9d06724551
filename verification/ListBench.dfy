/** core_bench_list and the iterations over it. */
module ListBench {
  import opened ListCells
  import opened ListNodes
  import opened ListSort
  import opened ListOps
  import opened ListOrders
  import Crc16

  /** The list at `list` holds the nodes in the order `order`, each with its own word. */
  ghost predicate Holds(nodes: seq<ListHead>, infos: seq<ListData>, order: seq<nat>, list: ListHead?)
    reads nodes
  {
    && Shuffle(order, |nodes|) && Carries(nodes, infos)
    && ListOf(Arrange(nodes, order), list)
  }

  lemma CurrentList(nodes: seq<ListHead>, infos: seq<ListData>, order: seq<nat>, list: ListHead?)
    requires Holds(nodes, infos, order, list)
    ensures Carries(Arrange(nodes, order), Arrange(infos, order))
    ensures forall i :: 0 <= i < |order| ==> Arrange(nodes, order)[i] in nodes
    ensures forall i :: 0 <= i < |order| ==> Arrange(infos, order)[i] in infos
    ensures Cells(Arrange(infos, order)) == Arrange(Cells(infos), order)
  {
    ArrangeDistinct(nodes, order);
    ArrangeDistinct(infos, order);
  }

  lemma CurrentNodes(nodes: seq<ListHead>, order: seq<nat>)
    requires Distinct(nodes) && Shuffle(order, |nodes|)
    ensures Distinct(Arrange(nodes, order))
    ensures forall i :: 0 <= i < |order| ==> Arrange(nodes, order)[i] in nodes
  {
    ArrangeDistinct(nodes, order);
  }

  /** core_list_reverse on the current list. */
  method ReverseList(list0: ListHead, ghost nodes: seq<ListHead>, ghost infos: seq<ListData>, ghost order0: seq<nat>)
    returns (list: ListHead, ghost order: seq<nat>)
    requires Holds(nodes, infos, order0, list0)
    modifies nodes`next
    ensures Holds(nodes, infos, order, list) && order == Reversed(order0)
  {
    ghost var cur := Arrange(nodes, order0);
    CurrentNodes(nodes, order0);
    list := Reverse(list0, cur);
    ArrangeReversed(nodes, order0);
    ReversedPermutation(order0, |nodes|);
    order := Reversed(order0);
  }

  /** Caching the node behind a hit at the head of the list. */
  method CacheHit(found: ListHead, list: ListHead,
                  ghost nodes: seq<ListHead>, ghost infos: seq<ListData>, ghost order0: seq<nat>, ghost at: nat)
    returns (ghost order: seq<nat>)
    requires Holds(nodes, infos, order0, list) && at < |nodes| && found == nodes[order0[at]]
    modifies nodes`next
    ensures Holds(nodes, infos, order, list)
    ensures order == CachedAt(order0, at)
  {
    CurrentNodes(nodes, order0);
    ArrangeCachedAt(nodes, order0, at);
    CacheNext(found, list, Arrange(nodes, order0), at);
    order := CachedAt(order0, at);
  }

  /** The position of the first match among words in list order, or their number if there is none. */
  ghost function FirstIn(words: seq<Cell>, idx: int, data16: int): (k: nat)
    ensures k <= |words| && (forall i :: 0 <= i < k ==> !Matches(words[i], idx, data16))
    ensures k < |words| ==> Matches(words[k], idx, data16)
  {
    if words == [] || Matches(words[0], idx, data16) then 0 else 1 + FirstIn(words[1..], idx, data16)
  }

  lemma FirstIs(words: seq<Cell>, idx: int, data16: int, k: nat)
    requires k <= |words| && (forall i :: 0 <= i < k ==> !Matches(words[i], idx, data16))
    requires k < |words| ==> Matches(words[k], idx, data16)
    ensures FirstIn(words, idx, data16) == k
  {
  }

  /** core_list_find on a list whose nodes carry the words `ci`. */
  method FindWord(list: ListHead, idx: int, data16: int, ghost cur: seq<ListHead>, ghost ci: seq<ListData>)
    returns (found: ListHead?, ghost k: nat)
    requires ListOf(cur, list) && |ci| == |cur| && forall i :: 0 <= i < |cur| ==> cur[i].info == ci[i]
    ensures k == FirstIn(Cells(ci), idx, data16) && found == if k < |cur| then cur[k] else null
  {
    found, k := Find(list, idx, data16, cur);
    ghost var words := Cells(ci);
    assert forall i :: 0 <= i < |cur| ==> words[i] == Snapshot(cur[i].info);
    FirstIs(words, idx, data16, k);
  }

  /** core_list_find on the current list. */
  method FindInList(list: ListHead, idx: int, data16: int,
                    ghost nodes: seq<ListHead>, ghost infos: seq<ListData>, ghost order: seq<nat>)
    returns (found: ListHead?, ghost k: nat)
    requires Holds(nodes, infos, order, list)
    ensures found == NodeAt(nodes, order, k) && k == FirstIn(Arrange(Cells(infos), order), idx, data16)
  {
    CurrentList(nodes, infos, order, list);
    found, k := FindWord(list, idx, data16, Arrange(nodes, order), Arrange(infos, order));
  }

  /** The list order after a search whose first match was at position k (no match if k is the length). */
  ghost function Searched(order: seq<nat>, k: nat): seq<nat>
    requires k <= |order|
  {
    if k < |order| then CachedAt(Reversed(order), |order| - 1 - k) else Reversed(order)
  }

  function MissBit(d: bv16): nat { if (d >> 8) & 1 != 0 then 1 else 0 }

  function HitBit(d: bv16): nat { if d & 0x1 != 0 && (d >> 9) & 1 != 0 then 1 else 0 }

  /** What a search adds to the return value. */
  ghost function SearchBit(cells: seq<Cell>, order: seq<nat>, k: nat): nat
    requires InRange(order, |cells|) && |order| >= 2
  {
    if k < |order| then HitBit(cells[order[k]].data16) else MissBit(cells[Reversed(order)[1]].data16)
  }

  /** One search of core_bench_list: find, reverse, and after a hit cache the next node at the
      head.  `bit` is what the search adds to the return value. */
  method Search(list0: ListHead, idx: int, data16: int,
                ghost nodes: seq<ListHead>, ghost infos: seq<ListData>, ghost order0: seq<nat>)
    returns (list: ListHead, hit: bool, bit: nat, ghost order: seq<nat>, ghost k: nat)
    requires |nodes| >= 2 && Holds(nodes, infos, order0, list0)
    modifies nodes`next
    ensures Holds(nodes, infos, order, list)
    ensures k == FirstIn(Arrange(old(Cells(infos)), order0), idx, data16)
    ensures order == Searched(order0, k) && (hit <==> k < |nodes|)
    ensures bit == SearchBit(old(Cells(infos)), order0, k)
  {
    var found;
    found, k := FindInList(list0, idx, data16, nodes, infos, order0);
    list, order := ReverseList(list0, nodes, infos, order0);
    hit := found != null;
    if found == null {
      bit := ReadMiss(list, nodes, infos, order);
    } else {
      bit := ReadHit(found, nodes, infos, order0[k]);
      order := CacheHit(found, list, nodes, infos, order, |nodes| - 1 - k);
    }
  }

  /** What a hit reads: the data of the node found. */
  method ReadHit(found: ListHead, ghost nodes: seq<ListHead>, ghost infos: seq<ListData>, ghost x: nat) returns (bit: nat)
    requires Carries(nodes, infos) && x < |nodes| && found == nodes[x]
    ensures bit == HitBit(Cells(infos)[x].data16)
  {
    var data := found.info.data16;
    bit := 0;
    if data & 0x1 != 0 && (data >> 9) & 1 != 0 {
      bit := 1;
    }
  }

  /** What a miss reads: the data of the second node. */
  method ReadMiss(list: ListHead, ghost nodes: seq<ListHead>, ghost infos: seq<ListData>, ghost order: seq<nat>)
    returns (bit: nat)
    requires |nodes| >= 2 && Holds(nodes, infos, order, list)
    ensures bit == MissBit(Cells(infos)[order[1]].data16)
  {
    ghost var cur := Arrange(nodes, order);
    assert cur[0].next == cur[1];
    bit := if (list.next.info.data16 >> 8) & 1 != 0 then 1 else 0;
  }

  /** crc16 of the same word, n times. */
  function Repeat(w: Crc16.Word, n: nat, crc: Crc16.Word): Crc16.Word
    decreases n
  {
    if n == 0 then crc else Repeat(w, n - 1, Crc16.Crcu16(w, crc))
  }

  method CrcOnce(list: ListHead, crc: Crc16.Word, ghost w: Crc16.Word) returns (retval: Crc16.Word)
    requires w == ToWord(list.info.data16)
    ensures retval == Crc16.Crcu16(w, crc)
  {
    retval := Crc16.Crcu16Calls(ToWord(list.info.data16), crc);
  }

  /** One CRC step, always over the first node's word, for every node from finder0 on. */
  method CrcTail(finder0: ListHead?, list: ListHead, retval0: Crc16.Word, ghost cur: seq<ListHead>, ghost k0: nat)
    returns (retval: Crc16.Word)
    requires ListOf(cur, list) && k0 <= |cur| && finder0 == if k0 < |cur| then cur[k0] else null
    ensures retval == Repeat(ToWord(list.info.data16), |cur| - k0, retval0)
  {
    var finder := finder0;
    retval := retval0;
    ghost var k, w := k0, ToWord(list.info.data16);
    while finder != null
      invariant k0 <= k <= |cur| && finder == if k < |cur| then cur[k] else null
      invariant Repeat(w, |cur| - k, retval) == Repeat(w, |cur| - k0, retval0)
      decreases |cur| - k
    {
      retval := CrcOnce(list, retval, w);
      finder, k := finder.next, k + 1;
    }
  }

  ghost function Without1<T>(s: seq<T>): (r: seq<T>)
    requires |s| >= 2
  {
    s[..1] + s[2..]
  }

  /** The CRC over the list without its second word, from the first match on. */
  ghost function CrcRemoved(words: seq<Cell>, idx: int, data16: int, crc: Crc16.Word): Crc16.Word
    requires |words| >= 3
  {
    var rest := Without1(words);
    var k := FirstIn(rest, idx, data16);
    Repeat(ToWord(words[0].data16), |rest| - (if k < |rest| then k else 1), crc)
  }

  /** The CRC step between remove and undo remove. */
  method CrcFromMatch(list: ListHead, idx: int, data16: int, retval0: Crc16.Word, ghost rest: seq<ListHead>,
                      ghost ri: seq<ListData>, ghost words: seq<Cell>)
    returns (retval: Crc16.Word)
    requires |words| >= 3 && ListOf(rest, list) && |ri| == |rest| && forall i :: 0 <= i < |rest| ==> rest[i].info == ri[i]
    requires Cells(ri) == Without1(words)
    ensures retval == CrcRemoved(words, idx, data16, retval0)
  {
    var finder, k := FindWord(list, idx, data16, rest, ri);
    if finder == null {
      assert rest[0].next == rest[1];
      finder, k := list.next, 1;
    }
    assert Cells(ri)[0] == words[0];
    retval := CrcTail(finder, list, retval0, rest, k);
  }

  /** The remove, CRC and undo-remove stretch of core_bench_list: it leaves every pointer of
      every node as it found it. */
  method RemoveAndUndo(list: ListHead, idx: int, data16: int, retval0: Crc16.Word, ghost cur: seq<ListHead>, ghost ci: seq<ListData>)
    returns (retval: Crc16.Word)
    requires |cur| >= 3 && Distinct(cur) && ListOf(cur, list)
    requires |ci| == |cur| && forall i :: 0 <= i < |cur| ==> cur[i].info == ci[i]
    modifies cur
    ensures forall i :: 0 <= i < |cur| ==> cur[i].next == old(cur[i].next) && cur[i].info == old(cur[i].info)
    ensures retval == CrcRemoved(old(Cells(ci)), idx, data16, retval0)
  {
    ghost var words := Cells(ci);
    assert list.next == cur[1] && cur[1].next == cur[2];
    forall i: nat | i < |cur| && i != 1 && i != 2 ensures cur[i] != cur[1] && cur[i] != cur[2] {
      assert Differ(cur, i, 1) && Differ(cur, i, 2);
    }
    assert Differ(cur, 1, 2);
    var remover := Remove(list.next);
    ghost var rest, ri := cur[..2] + cur[3..], Without1(ci);
    assert ListOf(rest, list);
    assert Cells(ri) == Without1(words);
    retval := CrcFromMatch(list, idx, data16, retval0, rest, ri, words);
    UndoRemove(remover, list.next);
  }

  ghost predicate AllSettled(cmp: Order, cells: seq<Cell>) {
    forall i :: 0 <= i < |cells| ==> Settled(cmp, cells[i])
  }

  /** `order` is the stable sort of `order0`: entry perm[i] of order0 becomes entry i, the words never
      decrease, and words that compare equal keep the order they had in order0. */
  ghost predicate StableSorted(cmp: Order, cells: seq<Cell>, order0: seq<nat>, perm: seq<nat>, order: seq<nat>) {
    && InRange(order0, |cells|) && |order0| == |cells| && Shuffle(perm, |cells|)
    && order == Arrange(order0, perm) && Sorted(RanksOf(cmp, Arrange(cells, order0)), perm)
  }

  /** A sort of two or more nodes compares every one of them, so every word is settled. */
  lemma SortOutcome(cmp: Order, cells: seq<Cell>, order0: seq<nat>, perm: seq<nat>, order: seq<nat>)
    requires StableSorted(cmp, cells, order0, perm, order) && Shuffle(order0, |cells|) && |cells| >= 2
    ensures AllSettled(cmp, cells)
  {
    var ranks := RanksOf(cmp, Arrange(cells, order0));
    ShuffleIsPermutation(perm, |cells|);
    forall x: nat | x < |cells| ensures Settled(cmp, cells[x]) {
      var i := PositionOf(order0, |cells|, x);
      SortedSettles(ranks, perm, i);
    }
  }

  lemma RanksOfCells(cmp: Order, infos: seq<ListData>)
    ensures Ranks(cmp, infos) == RanksOf(cmp, Cells(infos))
  {
    assert Ranks(cmp, infos).at == RanksOf(cmp, Cells(infos)).at;
  }

  /** core_list_mergesort on the current list. */
  method SortList(list0: ListHead, cmp: Order, res: Results?,
                  ghost nodes: seq<ListHead>, ghost infos: seq<ListData>, ghost order0: seq<nat>)
    returns (list: ListHead, ghost perm: seq<nat>, ghost order: seq<nat>)
    requires cmp.ByData? ==> res != null
    requires Holds(nodes, infos, order0, list0)
    modifies nodes`next, infos`data16, res
    ensures Holds(nodes, infos, order, list)
    ensures Evolves(cmp, old(Cells(infos)), Cells(infos))
    ensures StableSorted(cmp, Cells(infos), order0, perm, order)
  {
    ghost var cur, ci := Arrange(nodes, order0), Arrange(infos, order0);
    CurrentList(nodes, infos, order0, list0);
    ghost var calls, cells := 0, Cells(infos);
    list, perm, calls := MergeSort(list0, cmp, res, cur, ci);
    ArrangeTwice(nodes, order0, perm);
    ArrangePermutation(order0, perm, |nodes|);
    ShuffleIsPermutation(perm, |nodes|);
    order := Arrange(order0, perm);
    RanksOfCells(cmp, ci);
    assert Cells(ci) == Arrange(Cells(infos), order0);
    EvolvesBack(cmp, cells, Cells(infos), order0);
  }

  /** The remove stretch on the current list. */
  method RemoveStretch(list: ListHead, idx: int, data16: int, retval0: Crc16.Word,
                       ghost nodes: seq<ListHead>, ghost infos: seq<ListData>, ghost order: seq<nat>, ghost cells: seq<Cell>)
    returns (retval: Crc16.Word)
    requires |nodes| >= 3 && Holds(nodes, infos, order, list) && Cells(infos) == cells
    modifies nodes
    ensures Holds(nodes, infos, order, list) && Cells(infos) == cells
    ensures retval == CrcRemoved(Arrange(cells, order), idx, data16, retval0)
  {
    ghost var cur := Arrange(nodes, order);
    CurrentList(nodes, infos, order, list);
    retval := RemoveAndUndo(list, idx, data16, retval0, cur, Arrange(infos, order));
    forall x: nat | x < |nodes| ensures nodes[x].info == infos[x] {
      var i := PositionOf(order, |nodes|, x);
      assert cur[i].info == old(cur[i].info);
    }
  }

  /** The two parts of a word that no step of the benchmark touches. */
  ghost predicate BackupKept(cells: seq<Cell>, cells': seq<Cell>) {
    && |cells'| == |cells|
    && forall i :: 0 <= i < |cells| ==> cells'[i].idx == cells[i].idx && Upper(cells'[i].data16) == Upper(cells[i].data16)
  }

  /** The words with every low byte rebuilt from its backup. */
  ghost function RegenAll(cells: seq<Cell>): (r: seq<Cell>)
    ensures |r| == |cells|
    ensures forall i :: 0 <= i < |cells| ==> r[i] == Cell(Regenerate(cells[i].data16), cells[i].idx)
  {
    seq(|cells|, i requires 0 <= i < |cells| => Cell(Regenerate(cells[i].data16), cells[i].idx))
  }

  /** Words with their backup intact, once regenerated, are the original words regenerated ... */
  lemma BackupRestores(cells: seq<Cell>, cells': seq<Cell>)
    requires BackupKept(cells, cells') && AllSettled(ByIndex(true), cells')
    ensures cells' == RegenAll(cells)
  {
    forall i | 0 <= i < |cells| ensures cells'[i] == RegenAll(cells)[i] {
      assert Settled(ByIndex(true), cells'[i]);
      UpperDetermines(Regenerate(cells[i].data16), cells'[i].data16);
    }
  }

  /** ... which are the original words exactly if those were regenerated. */
  lemma RegenAllIff(cells: seq<Cell>)
    ensures RegenAll(cells) == cells <==> AllSettled(ByIndex(true), cells)
  {
    if AllSettled(ByIndex(true), cells) {
      forall i | 0 <= i < |cells| ensures RegenAll(cells)[i] == cells[i] {
        assert Settled(ByIndex(true), cells[i]);
      }
    }
    if RegenAll(cells) == cells {
      forall i | 0 <= i < |cells| ensures Settled(ByIndex(true), cells[i]) {
        assert RegenAll(cells)[i] == cells[i];
      }
    }
  }

  /** ee_s16 increment. */
  function Next16(i: int): (r: int)
    ensures -0x8000 <= i <= 0x7fff ==> -0x8000 <= r <= 0x7fff && (r - i - 1) % 0x1_0000 == 0
  {
    if i == 0x7fff then -0x8000 else i + 1
  }

  function LowByteOf(i: nat): int { i % 0x100 }

  /** The counters after one more search. */
  ghost predicate CountedOne(cells: seq<Cell>, data16: int, order: seq<nat>, idx: int, found: nat, missed: nat, sum: nat,
                             order': seq<nat>, idx': int, found': nat, missed': nat, sum': nat)
  {
    && InRange(order, |cells|) && |order| == |cells| >= 2
    && idx' == (if idx >= 0 then Next16(idx) else idx)
    && var k := FirstIn(Arrange(cells, order), idx, data16);
    && order' == Searched(order, k) && sum' == sum + SearchBit(cells, order, k)
    && found' == found + (if k < |cells| then 1 else 0) && missed' == missed + (if k < |cells| then 0 else 1)
  }

  function Rounds(findNum: int): nat { if findNum > 0 then findNum else 0 }

  /** One turn of the search loop, with its bookkeeping. */
  method SearchTurn(list0: ListHead, idx0: int, found0: nat, missed0: nat, sum0: nat, data16: int,
                    ghost nodes: seq<ListHead>, ghost infos: seq<ListData>, ghost order0: seq<nat>, ghost cells: seq<Cell>)
    returns (list: ListHead, idx: int, found: nat, missed: nat, sum: nat, ghost order: seq<nat>)
    requires |nodes| >= 2 && Holds(nodes, infos, order0, list0) && Cells(infos) == cells
    modifies nodes`next
    ensures Holds(nodes, infos, order, list) && Cells(infos) == cells
    ensures CountedOne(cells, data16, order0, idx0, found0, missed0, sum0, order, idx, found, missed, sum)
  {
    var hit, bit;
    ghost var k;
    list, hit, bit, order, k := Search(list0, idx0, data16, nodes, infos, order0);
    idx, found, missed := idx0, found0, missed0;
    if hit {
      found := found + 1;
    } else {
      missed := missed + 1;
    }
    sum := sum0 + bit;
    if idx >= 0 {
      idx := Next16(idx);
    }
  }

  datatype Counts = Counts(idx: int, found: nat, missed: nat, sum: nat)

  /** Turn i of the search loop leads from the i-th to the next order and counters. */
  ghost predicate TurnOk(cells: seq<Cell>, orders: seq<seq<nat>>, counts: seq<Counts>, i: nat)
    requires i + 1 < |orders| == |counts|
  {
    var c, d := counts[i], counts[i + 1];
    CountedOne(cells, LowByteOf(i), orders[i], c.idx, c.found, c.missed, c.sum, orders[i + 1], d.idx, d.found, d.missed, d.sum)
  }

  ghost predicate Trace(cells: seq<Cell>, orders: seq<seq<nat>>, counts: seq<Counts>) {
    && |orders| == |counts| >= 1
    && forall i: nat {:trigger TurnOk(cells, orders, counts, i)} :: i + 1 < |orders| ==> TurnOk(cells, orders, counts, i)
  }

  lemma TraceGrows(cells: seq<Cell>, orders: seq<seq<nat>>, counts: seq<Counts>, order: seq<nat>, d: Counts)
    requires Trace(cells, orders, counts)
    requires var n, o, c := |orders| - 1, orders[|orders| - 1], counts[|orders| - 1];
      CountedOne(cells, LowByteOf(n), o, c.idx, c.found, c.missed, c.sum, order, d.idx, d.found, d.missed, d.sum)
    ensures Trace(cells, orders + [order], counts + [d])
  {
    forall i: nat | i + 1 < |orders| + 1 ensures TurnOk(cells, orders + [order], counts + [d], i) {
      if i + 1 < |orders| {
        assert TurnOk(cells, orders, counts, i);
      }
    }
  }

  /** The whole search loop: n turns from the order `start`, the first looking for index idx. */
  ghost predicate Searches(cells: seq<Cell>, start: seq<nat>, idx: int, n: nat, orders: seq<seq<nat>>, counts: seq<Counts>) {
    Trace(cells, orders, counts) && |orders| == n + 1 && orders[0] == start && counts[0] == Counts(idx, 0, 0, 0)
  }

  /** The 16-bit score of the searches. */
  function Score(c: Counts): nat { (c.sum + (c.found * 4 - c.missed)) % 0x1_0000 }

  /** retval += found * 4 - missed, in 16 bits. */
  method AddUp(c: Counts) returns (score: Crc16.Word)
    ensures score == Crc16.BitsOf(Score(c), 16)
  {
    var sum := (c.sum + c.found * 4 - c.missed) % 0x1_0000;
    score := Crc16.BitsOf(sum, 16);
  }

  /** Turn i, which extends the trace. */
  method NextSearch(list0: ListHead, i: nat, c: Counts,
                    ghost nodes: seq<ListHead>, ghost infos: seq<ListData>, ghost order0: seq<nat>, ghost cells: seq<Cell>,
                    ghost orders0: seq<seq<nat>>, ghost counts0: seq<Counts>)
    returns (list: ListHead, d: Counts, ghost order: seq<nat>, ghost orders: seq<seq<nat>>, ghost counts: seq<Counts>)
    requires |nodes| >= 2 && Holds(nodes, infos, order0, list0) && Cells(infos) == cells
    requires Trace(cells, orders0, counts0) && |orders0| == i + 1 && orders0[i] == order0 && counts0[i] == c
    modifies nodes`next
    ensures Holds(nodes, infos, order, list) && Cells(infos) == cells
    ensures Trace(cells, orders, counts) && |orders| == i + 2 && orders[i + 1] == order && counts[i + 1] == d
    ensures orders[0] == orders0[0] && counts[0] == counts0[0]
  {
    var idx, found, missed, sum;
    list, idx, found, missed, sum, order :=
      SearchTurn(list0, c.idx, c.found, c.missed, c.sum, LowByteOf(i), nodes, infos, order0, cells);
    d := Counts(idx, found, missed, sum);
    TraceGrows(cells, orders0, counts0, order, d);
    orders, counts := orders0 + [order], counts0 + [d];
  }

  /** The data byte the last of n searches looked for. */
  function LastByte(n: nat): int { if n == 0 then 0 else LowByteOf(n - 1) }

  /** The find_num searches of core_bench_list. */
  method SearchLoop(list0: ListHead, findNum: int, finderIdx: int,
                    ghost nodes: seq<ListHead>, ghost infos: seq<ListData>, ghost order0: seq<nat>,
                    ghost cells: seq<Cell>, ghost n: nat)
    returns (list: ListHead, c: Counts, data16: int, ghost order: seq<nat>,
             ghost orders: seq<seq<nat>>, ghost counts: seq<Counts>)
    requires |nodes| >= 2 && Holds(nodes, infos, order0, list0) && Cells(infos) == cells && n == Rounds(findNum)
    modifies nodes`next
    ensures Holds(nodes, infos, order, list) && Cells(infos) == cells && data16 == LastByte(n)
    ensures Searches(cells, order0, finderIdx, n, orders, counts) && orders[n] == order && counts[n] == c
  {
    list, order, c, data16 := list0, order0, Counts(finderIdx, 0, 0, 0), 0;
    orders, counts := [order], [c];
    var i: nat := 0;
    while i < findNum
      invariant i <= n && Holds(nodes, infos, order, list) && Cells(infos) == cells && data16 == LastByte(i)
      invariant Trace(cells, orders, counts) && |orders| == i + 1 && orders[i] == order && counts[i] == c
      invariant orders[0] == order0 && counts[0] == Counts(finderIdx, 0, 0, 0)
      decreases n - i
    {
      data16 := LowByteOf(i);
      list, c, order, orders, counts := NextSearch(list, i, c, nodes, infos, order, cells, orders, counts);
      i := i + 1;
    }
    assert i == n;
  }

  /** What the data sort leaves of the words in `order`, if it is done at all. */
  ghost predicate DataSorted(cells: seq<Cell>, order: seq<nat>, idx: int, cells2: seq<Cell>, perm2: seq<nat>, order2: seq<nat>) {
    && BackupKept(cells, cells2) && Shuffle(order2, |cells|)
    && (if idx > 0 then StableSorted(ByData, cells2, order, perm2, order2) && AllSettled(ByData, cells2)
        else cells2 == cells && order2 == order)
  }

  /** Sorting by data content, when finder_idx asks for it. */
  method DataPhase(res: Results, finderIdx: int, list0: ListHead,
                   ghost nodes: seq<ListHead>, ghost infos: seq<ListData>, ghost order0: seq<nat>)
    returns (list: ListHead, ghost perm: seq<nat>, ghost order: seq<nat>)
    requires |nodes| >= 2 && Holds(nodes, infos, order0, list0)
    modifies nodes`next, infos`data16, res
    ensures Holds(nodes, infos, order, list)
    ensures DataSorted(old(Cells(infos)), order0, finderIdx, Cells(infos), perm, order)
    ensures finderIdx <= 0 ==> res.crc == old(res.crc)
  {
    list, order, perm := list0, order0, order0;
    if finderIdx > 0 {
      list, perm, order := SortList(list, ByData, res, nodes, infos, order);
      SortOutcome(ByData, Cells(infos), order0, perm, order);
    }
  }

  /** Sorting by index, which also regenerates the data. */
  method IndexPhase(list0: ListHead, ghost nodes: seq<ListHead>, ghost infos: seq<ListData>,
                    ghost order0: seq<nat>, ghost cells: seq<Cell>)
    returns (list: ListHead, ghost perm: seq<nat>, ghost order: seq<nat>)
    requires |nodes| >= 2 && Holds(nodes, infos, order0, list0) && BackupKept(cells, Cells(infos))
    modifies nodes`next, infos`data16
    ensures Holds(nodes, infos, order, list) && Cells(infos) == RegenAll(cells)
    ensures StableSorted(ByIndex(true), RegenAll(cells), order0, perm, order)
  {
    list, perm, order := SortList(list0, ByIndex(true), null, nodes, infos, order0);
    SortOutcome(ByIndex(true), Cells(infos), order0, perm, order);
    BackupRestores(cells, Cells(infos));
  }

  /** The list core_bench_list works on: its nodes, their words, its first node. */
  ghost predicate Ready(nodes: seq<ListHead>, infos: seq<ListData>, list: ListHead?)
    reads nodes
  {
    |nodes| >= 3 && Carries(nodes, infos) && ListOf(nodes, list)
  }

  ghost function Identity(n: nat): (order: seq<nat>)
    ensures |order| == n && InRange(order, n)
  {
    seq(n, i => i)
  }

  lemma InOrder(nodes: seq<ListHead>, infos: seq<ListData>, list: ListHead?)
    requires Carries(nodes, infos) && ListOf(nodes, list)
    ensures Holds(nodes, infos, Identity(|nodes|), list)
  {
    assert Arrange(nodes, Identity(|nodes|)) == nodes;
  }

  /** The CRC over a list whose first word is w. */
  ghost function Final(w: Cell, n: nat, crc: Crc16.Word): Crc16.Word
    requires n >= 1
  {
    Repeat(ToWord(w.data16), n - 1, crc)
  }

  /** What core_bench_list has when the removed item is put back: the score of n searches that ended with
      the counters c, run through the CRC over the list as the data sort left it (cells2 in order2). */
  ghost function MidValue(c: Counts, n: nat, cells2: seq<Cell>, order2: seq<nat>): Crc16.Word
    requires |order2| == |cells2| >= 3 && InRange(order2, |cells2|)
  {
    CrcRemoved(Arrange(cells2, order2), c.idx, LastByte(n), Crc16.BitsOf(Score(c), 16))
  }

  /** A record that fits the words and the number of searches. */
  ghost predicate Shaped(r: Record, cells: seq<Cell>, n: nat) {
    && |r.counts| == n + 1 && |cells| >= 3
    && |r.order2| == |r.cells2| == |cells| && InRange(r.order2, |cells|) && |r.order3| == |cells| && InRange(r.order3, |cells|)
  }

  lemma RecordedShaped(r: Record, cells: seq<Cell>, finderIdx: int, n: nat)
    requires Recorded(r, cells, finderIdx, n) && |cells| >= 3
    ensures Shaped(r, cells, n)
  {
  }

  /** What core_bench_list returns, by its record. */
  ghost function Outcome(r: Record, cells: seq<Cell>, n: nat): Crc16.Word
    requires Shaped(r, cells, n)
  {
    Final(RegenAll(cells)[r.order3[0]], |cells|, MidValue(r.counts[n], n, r.cells2, r.order2))
  }

  /** A run of core_bench_list, for the record: its searches, and what its two sorts did. */
  datatype Record = Record(orders: seq<seq<nat>>, counts: seq<Counts>, cells2: seq<Cell>,
                           perm2: seq<nat>, order2: seq<nat>, perm3: seq<nat>, order3: seq<nat>)

  ghost predicate Recorded2(r: Record, cells: seq<Cell>, finderIdx: int, n: nat) {
    && Searches(cells, Identity(|cells|), finderIdx, n, r.orders, r.counts)
    && DataSorted(cells, r.orders[n], finderIdx, r.cells2, r.perm2, r.order2)
  }

  ghost predicate Recorded(r: Record, cells: seq<Cell>, finderIdx: int, n: nat) {
    && Recorded2(r, cells, finderIdx, n)
    && StableSorted(ByIndex(true), RegenAll(cells), r.order2, r.perm3, r.order3)
  }

  /** The searches and the data sort. */
  method SearchAndSort(res: Results, finderIdx: int, ghost nodes: seq<ListHead>, ghost infos: seq<ListData>,
                       ghost cells: seq<Cell>, ghost n: nat)
    returns (list: ListHead, c: Counts, data16: int, ghost r: Record)
    requires Ready(nodes, infos, res.list) && Cells(infos) == cells && n == Rounds(res.seed3)
    modifies nodes`next, infos`data16, res
    ensures Holds(nodes, infos, r.order2, list) && Cells(infos) == r.cells2
    ensures Recorded2(r, cells, finderIdx, n) && c == r.counts[n] && data16 == LastByte(n)
    ensures finderIdx <= 0 ==> res.crc == old(res.crc)
  {
    InOrder(nodes, infos, res.list);
    ghost var order, orders, counts, perm2, order2;
    list, c, data16, order, orders, counts :=
      SearchLoop(res.list, res.seed3, finderIdx, nodes, infos, Identity(|nodes|), cells, n);
    list, perm2, order2 := DataPhase(res, finderIdx, list, nodes, infos, order);
    r := Record(orders, counts, Cells(infos), perm2, order2, [], []);
  }

  /** Everything up to the index sort: searches, data sort, remove and undo. */
  method Scramble(res: Results, finderIdx: int, ghost nodes: seq<ListHead>, ghost infos: seq<ListData>,
                  ghost cells: seq<Cell>, ghost n: nat)
    returns (list: ListHead, retval: Crc16.Word, ghost r: Record)
    requires Ready(nodes, infos, res.list) && Cells(infos) == cells && n == Rounds(res.seed3)
    modifies nodes, infos`data16, res
    ensures Holds(nodes, infos, r.order2, list) && Cells(infos) == r.cells2
    ensures Recorded2(r, cells, finderIdx, n)
    ensures retval == MidValue(r.counts[n], n, r.cells2, r.order2)
    ensures finderIdx <= 0 ==> res.crc == old(res.crc)
  {
    var c, data16;
    list, c, data16, r := SearchAndSort(res, finderIdx, nodes, infos, cells, n);
    var score := AddUp(c);
    retval := RemoveStretch(list, c.idx, data16, score, nodes, infos, r.order2, r.cells2);
  }

  /** core_bench_list, on any list of at least three nodes: the words end up regenerated, no info pointer
      changes, and the nodes end up in the order of a stable index sort.  res->list still points to the
      original first node, so the list is restored exactly if that order is the original one. */
  method BenchList(res: Results, finderIdx: int, ghost nodes: seq<ListHead>, ghost infos: seq<ListData>)
    returns (retval: Crc16.Word, ghost r: Record)
    requires Ready(nodes, infos, res.list)
    modifies nodes, infos`data16, res
    ensures Cells(infos) == RegenAll(old(Cells(infos)))
    ensures Recorded(r, old(Cells(infos)), finderIdx, Rounds(res.seed3)) && Shaped(r, old(Cells(infos)), Rounds(res.seed3))
    ensures Holds(nodes, infos, r.order3, nodes[r.order3[0]])
    ensures ListOf(nodes, res.list) <==> r.order3 == Identity(|nodes|)
    ensures retval == Outcome(r, old(Cells(infos)), Rounds(res.seed3))
    ensures finderIdx <= 0 ==> res.crc == old(res.crc)
  {
    ghost var cells, n := Cells(infos), Rounds(res.seed3);
    assert res.list == nodes[0];
    var list;
    list, retval, r := Scramble(res, finderIdx, nodes, infos, cells, n);
    list, retval, r := SortBack(list, retval, nodes, infos, cells, finderIdx, n, r);
    ChainIff(nodes, infos, r.order3, list);
    RecordedShaped(r, cells, finderIdx, n);
  }

  /** The index sort and the CRC over its outcome. */
  method SortBack(list0: ListHead, retval0: Crc16.Word, ghost nodes: seq<ListHead>, ghost infos: seq<ListData>,
                  ghost cells: seq<Cell>, ghost finderIdx: int, ghost n: nat, ghost r0: Record)
    returns (list: ListHead, retval: Crc16.Word, ghost r: Record)
    requires |nodes| >= 3 && Holds(nodes, infos, r0.order2, list0) && Cells(infos) == r0.cells2 && |cells| == |nodes|
    requires Recorded2(r0, cells, finderIdx, n)
    modifies nodes`next, infos`data16
    ensures Holds(nodes, infos, r.order3, list) && Cells(infos) == RegenAll(cells)
    ensures Recorded(r, cells, finderIdx, n) && r == r0.(perm3 := r.perm3, order3 := r.order3)
    ensures retval == Final(Cells(infos)[r.order3[0]], |nodes|, retval0)
  {
    ghost var perm3, order3;
    list, perm3, order3 := IndexPhase(list0, nodes, infos, r0.order2, cells);
    r := r0.(perm3 := perm3, order3 := order3);
    retval := CrcRestored(list, retval0, nodes, infos, order3);
  }

  /** The final CRC. */
  method CrcRestored(list: ListHead, retval0: Crc16.Word, ghost nodes: seq<ListHead>, ghost infos: seq<ListData>, ghost order: seq<nat>)
    returns (retval: Crc16.Word)
    requires |nodes| >= 3 && Holds(nodes, infos, order, list)
    ensures retval == Final(Cells(infos)[order[0]], |nodes|, retval0)
  {
    ghost var cur := Arrange(nodes, order);
    assert cur[0].next == cur[1] && cur[0].info == infos[order[0]];
    retval := CrcTail(list.next, list, retval0, cur, 1);
  }

  /** The original chain is intact exactly if the nodes are in their original order. */
  lemma ChainIff(nodes: seq<ListHead>, infos: seq<ListData>, order: seq<nat>, list: ListHead)
    requires Holds(nodes, infos, order, list) && nodes != []
    ensures ListOf(nodes, nodes[0]) <==> order == Identity(|nodes|)
  {
    var cur := Arrange(nodes, order);
    if order == Identity(|nodes|) {
      assert cur == nodes;
    }
    if ListOf(nodes, nodes[0]) {
      forall i: nat | i < |nodes| ensures order[i] == i {
        SamePlace(nodes, infos, order, list, i);
      }
    }
  }

  lemma {:induction false} SamePlace(nodes: seq<ListHead>, infos: seq<ListData>, order: seq<nat>, list: ListHead, i: nat)
    requires Holds(nodes, infos, order, list) && ListOf(nodes, nodes[0]) && i < |nodes|
    ensures order[i] == i
    decreases |nodes| - i
  {
    var cur, x := Arrange(nodes, order), order[i];
    assert cur[i] == nodes[x] && cur[i].next == nodes[x].next;
    if i + 1 < |nodes| {
      assert x + 1 < |nodes| && x != i ==> Differ(nodes, x + 1, i + 1);
      SamePlace(nodes, infos, order, list, i + 1);
      assert cur[i].next == cur[i + 1] == nodes[i + 1];
    }
  }
}
