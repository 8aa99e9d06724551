/** The list_head / list_data records and the comparators of core_list_join.c. */
module ListNodes {
  import opened ListCells
  import Crc16

  class ListData {
    var data16: bv16
    var idx: int
    constructor (data16: bv16, idx: int)
      ensures this.data16 == data16 && this.idx == idx
    {
      this.data16, this.idx := data16, idx;
    }
  }

  class ListHead {
    var next: ListHead?
    var info: ListData
    constructor (next: ListHead?, info: ListData)
      ensures this.next == next && this.info == info
    {
      this.next, this.info := next, info;
    }
  }

  /** The part of core_results that the list benchmark reads and writes.  The k-th call of
      core_bench_state or core_bench_matrix returns answers(k), an arbitrary value. */
  class Results {
    const seed3: int
    const list: ListHead
    const answers: nat -> bv16
    var asked: nat
    var crc: Crc16.Word
    var crcstate: bv16
    var crcmatrix: bv16

    constructor (seed3: int, list: ListHead, answers: nat -> bv16)
      ensures this.seed3 == seed3 && this.list == list && this.answers == answers
      ensures asked == 0 && crc == Crc16.Zeros(16)
    {
      this.seed3, this.list, this.answers := seed3, list, answers;
      asked, crc, crcstate, crcmatrix := 0, Crc16.Zeros(16), 0, 0;
    }
  }

  /** Bit i of a machine word. */
  predicate BitAt(c: bv16, i: nat)
    requires i <= 16
  {
    (c >> i) & 1 != 0
  }

  /** The low n bits of a machine word, least significant first. */
  function WordBits(c: bv16, n: nat): (r: seq<bool>)
    requires n <= 16
    ensures |r| == n
  {
    if n == 0 then [] else WordBits(c, n - 1) + [BitAt(c, n - 1)]
  }

  /** Position i holds bit i. */
  lemma {:induction false} WordBitsAt(c: bv16, n: nat, i: nat)
    requires i < n <= 16
    ensures WordBits(c, n)[i] <==> BitAt(c, i)
    decreases n
  {
    if i < n - 1 {
      WordBitsAt(c, n - 1, i);
    }
  }

  function ToWord(c: bv16): Crc16.Word { WordBits(c, 16) }

  /** What calc_func computes for an uncached word. */
  function Computed(d: bv16, answer: bv16): bv16 { if d & 0x7 == 0 || d & 0x7 == 1 then answer else d }

  function Snapshot(d: ListData): Cell
    reads d
  {
    Cell(d.data16, d.idx)
  }

  ghost function Cells(infos: seq<ListData>): (c: seq<Cell>)
    reads infos
    ensures |c| == |infos|
    ensures forall i :: 0 <= i < |infos| ==> c[i] == Snapshot(infos[i])
  {
    seq(|infos|, i requires 0 <= i < |infos| reads infos => Snapshot(infos[i]))
  }

  ghost function Ranks(cmp: Order, infos: seq<ListData>): (r: Ranking)
    reads infos
    ensures r.cmp == cmp && |r.at| == |infos|
    ensures forall i :: 0 <= i < |infos| ==> r.at[i] == RankOf(cmp, Snapshot(infos[i]))
  {
    Ranking(cmp, seq(|infos|, i requires 0 <= i < |infos| reads infos => RankOf(cmp, Snapshot(infos[i]))))
  }

  ghost predicate Differ<T>(s: seq<T>, i: nat, j: nat)
    requires i < |s| && j < |s|
  {
    s[i] != s[j]
  }

  ghost predicate Distinct<T>(s: seq<T>) {
    forall i: nat, j: nat {:trigger Differ(s, i, j)} :: i < |s| && j < |s| && i != j ==> Differ(s, i, j)
  }

  ghost function Nexts(nodes: seq<ListHead>): (nx: seq<ListHead?>)
    reads nodes
    ensures |nx| == |nodes|
    ensures forall i {:trigger nx[i]} :: 0 <= i < |nodes| ==> nx[i] == nodes[i].next
  {
    seq(|nodes|, i requires 0 <= i < |nodes| reads nodes => nodes[i].next)
  }

  /** `nodes` are different list nodes, carrying the different data words `infos`. */
  ghost predicate Carries(nodes: seq<ListHead>, infos: seq<ListData>)
    reads nodes
  {
    && |nodes| == |infos|
    && Distinct(nodes) && Distinct(infos)
    && forall i :: 0 <= i < |nodes| ==> nodes[i].info == infos[i]
  }

  /** The pointer to the node at position k of the list `order`, NULL at its end. */
  ghost function NodeAt(nodes: seq<ListHead>, order: seq<nat>, k: nat): ListHead?
    requires InRange(order, |nodes|)
  {
    if k < |order| then nodes[order[k]] else null
  }

  /** Which words call a kernel: those whose bits 1 and 2 are clear; bit 0 chooses between the two. */
  lemma KernelBits(d: bv16)
    ensures d & 0x7 == 0 <==> !BitSet(d, 0) && !BitSet(d, 1) && !BitSet(d, 2)
    ensures d & 0x7 == 1 <==> BitSet(d, 0) && !BitSet(d, 1) && !BitSet(d, 2)
  {
  }

  /** What the kernels have been asked and which answers are on record. */
  datatype Tally = Tally(asked: nat, crcstate: bv16, crcmatrix: bv16)

  function TallyOf(res: Results): Tally
    reads res
  {
    Tally(res.asked, res.crcstate, res.crcmatrix)
  }

  /** One more evaluation: a kernel's answer is recorded if it has none but zeros on record. */
  function Tallied(t: Tally, d: bv16, answer: bv16): Tally {
    Tally(t.asked + (if d & 0x7 == 0 || d & 0x7 == 1 then 1 else 0),
          if d & 0x7 == 0 && t.crcstate == 0 then answer else t.crcstate,
          if d & 0x7 == 1 && t.crcmatrix == 0 then answer else t.crcmatrix)
  }

  /** The switch of calc_func: run the benchmark kernel the low bits select, or take the word itself. */
  method RunKernel(data: bv16, res: Results) returns (retval: bv16)
    modifies res
    ensures retval == Computed(data, res.answers(old(res.asked))) && res.crc == old(res.crc)
    ensures TallyOf(res) == Tallied(old(TallyOf(res)), data, retval)
  {
    var flag := data & 0x7;
    if flag == 0 {
      retval := res.answers(res.asked);
      res.asked := res.asked + 1;
      if res.crcstate == 0 {
        res.crcstate := retval;
      }
    } else if flag == 1 {
      retval := res.answers(res.asked);
      res.asked := res.asked + 1;
      if res.crcmatrix == 0 {
        res.crcmatrix := retval;
      }
    } else {
      retval := data;
    }
  }

  /** The computing branch of calc_func: the outcome is folded into the running CRC. */
  method Evaluate(data: bv16, res: Results) returns (retval: bv16)
    modifies res
    ensures retval == Computed(data, res.answers(old(res.asked)))
    ensures res.crc == Crc16.Crcu16(ToWord(retval), old(res.crc))
    ensures TallyOf(res) == Tallied(old(TallyOf(res)), data, retval)
  {
    retval := RunKernel(data, res);
    res.crc := Crc16.Crcu16Calls(ToWord(retval), res.crc);
  }

  /** calc_func: use the cached value, or compute one and cache it. */
  method CalcFunc(d: ListData, res: Results) returns (v: bv16)
    modifies d`data16, res
    ensures Cached(d.data16) && v == Value(d.data16)
    ensures Upper(d.data16) == old(Upper(d.data16))
    ensures old(Cached(d.data16)) ==> d.data16 == old(d.data16) && res.crc == old(res.crc) && TallyOf(res) == old(TallyOf(res))
    ensures !old(Cached(d.data16)) ==>
      var c := Computed(old(d.data16), res.answers(old(res.asked)));
      && v == Value(c) && res.crc == Crc16.Crcu16(ToWord(c), old(res.crc))
      && TallyOf(res) == Tallied(old(TallyOf(res)), old(d.data16), c)
  {
    var data := d.data16;
    CachedBit(data);
    if (data >> 7) & 1 != 0 {
      return data & 0x007f;
    }
    var retval := Evaluate(data, res);
    v := retval & 0x007f;
    ValueOnce(retval);
    d.data16 := Remember(data, v);
  }

  /** The comparator call of core_list_mergesort. */
  method Compare(cmp: Order, a: ListData, b: ListData, res: Results?) returns (c: int)
    requires cmp.ByData? ==> res != null
    requires a != b
    modifies a`data16, b`data16, res
    ensures RankOf(cmp, Snapshot(a)).settled && RankOf(cmp, Snapshot(b)).settled
    ensures CellEvolves(cmp, old(Snapshot(a)), Snapshot(a))
    ensures CellEvolves(cmp, old(Snapshot(b)), Snapshot(b))
    ensures c <= 0 <==> Le(cmp, RankOf(cmp, Snapshot(a)), RankOf(cmp, Snapshot(b)))
    ensures !cmp.Other? ==> c == RankOf(cmp, Snapshot(a)).key - RankOf(cmp, Snapshot(b)).key
  {
    match cmp
    case ByData =>
      var val1 := CalcFunc(a, res);
      var val2 := CalcFunc(b, res);
      c := val1 as int - val2 as int;
    case ByIndex(regenerate) =>
      if regenerate {
        a.data16 := Regenerate(a.data16);
        b.data16 := Regenerate(b.data16);
      }
      c := a.idx - b.idx;
    case Other(f) =>
      c := f(Cell(a.data16, a.idx), Cell(b.data16, b.idx));
  }
}
