/** Data words of the CoreMark list benchmark (list_data in coremark.h) as values,
    and the comparison orders of cmp_complex and cmp_idx over snapshots of them.
    Everything the pointer code needs to know about data words is stated here on
    values, so that the heap proofs never look inside a bit pattern. */
module ListCells {

  datatype Cell = Cell(data16: bv16, idx: int)

  predicate Comparable(f: (Cell, Cell) -> int, a: Cell, b: Cell) { f(a, b) <= 0 || f(b, a) <= 0 }

  predicate Chains(f: (Cell, Cell) -> int, a: Cell, b: Cell, c: Cell) { f(a, b) <= 0 && f(b, c) <= 0 ==> f(a, c) <= 0 }

  /** What a list_cmp must be for a sort to make sense. */
  ghost predicate TotalPreorder(f: (Cell, Cell) -> int) {
    && (forall a, b {:trigger Comparable(f, a, b)} :: Comparable(f, a, b))
    && (forall a, b, c {:trigger Chains(f, a, b, c)} :: Chains(f, a, b, c))
  }

  type Comparator = f: (Cell, Cell) -> int | TotalPreorder(f) witness (a: Cell, b: Cell) => 0

  /** The comparator passed to core_list_mergesort: cmp_complex and cmp_idx, which change the words they
      compare (`ByIndex(true)` is cmp_idx called with res == NULL, which regenerates the data), or any
      other function that is a total preorder. */
  datatype Order = ByData | ByIndex(regenerate: bool) | Other(f: Comparator)

  /** Bit 7: the low seven bits hold a computed value. */
  predicate Cached(d: bv16) { d & 0x0080 != 0 }

  function Upper(d: bv16): bv16 { d & 0xff00 }

  function Value(d: bv16): bv16 { d & 0x007f }

  /** calc_func's write-back of a computed value. */
  function Remember(d: bv16, v: bv16): (r: bv16)
    ensures Cached(r) && Upper(r) == Upper(d) && Value(r) == Value(v)
  {
    (d & 0xff00) | 0x0080 | (v & 0x007f)
  }

  /** cmp_idx's rebuild of the low byte from its backup in the high byte. */
  function Regenerate(d: bv16): (r: bv16)
    ensures Upper(r) == Upper(d) && Regenerated(r)
    ensures Regenerated(d) ==> r == d
  {
    (d & 0xff00) | (0x00ff & (d >> 8))
  }

  predicate Regenerated(d: bv16) { d & 0x00ff == d >> 8 }

  /** Bit k of a word. */
  predicate BitSet(d: bv16, k: bv5)
    requires k < 16
  {
    (d >> k) & 1 == 1
  }

  /** What the parts of a word are, bit by bit: bit 7 is the cache flag, bits 0 to 6 the cached value, bits 8 to 15
      the backup of the low byte. */
  lemma WordParts(d: bv16, k: bv5)
    requires k < 16
    ensures Cached(d) <==> BitSet(d, 7)
    ensures BitSet(Value(d), k) <==> k < 7 && BitSet(d, k)
    ensures BitSet(Upper(d), k) <==> k >= 8 && BitSet(d, k)
  {
  }

  /** Remembering keeps the backup and replaces the low byte by the flag and the value ... */
  lemma RememberBits(d: bv16, v: bv16, k: bv5)
    requires k < 16
    ensures k >= 8 ==> (BitSet(Remember(d, v), k) <==> BitSet(d, k))
    ensures k == 7 ==> BitSet(Remember(d, v), k)
    ensures k < 7 ==> (BitSet(Remember(d, v), k) <==> BitSet(v, k))
  {
    var r := Remember(d, v);
    WordParts(r, k);
    WordParts(d, k);
    WordParts(v, k);
  }

  /** ... and regenerating replaces it by the backup. */
  lemma RegenerateBits(d: bv16, k: bv5)
    requires k < 8
    ensures BitSet(Regenerate(d), k) <==> BitSet(d, k + 8)
    ensures BitSet(Regenerate(d), k + 8) <==> BitSet(d, k + 8)
    ensures Regenerated(d) ==> (BitSet(d, k) <==> BitSet(d, k + 8))
  {
  }

  /** The shift calc_func tests bit 7 with. */
  lemma CachedBit(d: bv16)
    ensures ((d >> 7) & 1 != 0) == Cached(d)
  {
  }

  lemma ValueOnce(d: bv16)
    ensures Value(Value(d)) == Value(d)
  {
  }

  /** A regenerated word is determined by its upper byte. */
  lemma UpperDetermines(d: bv16, e: bv16)
    requires Regenerated(d) && Regenerated(e) && Upper(d) == Upper(e)
    ensures d == e
  {
  }

  predicate Settled(cmp: Order, c: Cell) {
    match cmp
    case ByData => Cached(c.data16)
    case ByIndex(regenerate) => regenerate ==> Regenerated(c.data16)
    case Other(_) => true
  }

  function Key(cmp: Order, c: Cell): int {
    match cmp
    case ByData => Value(c.data16) as int
    case ByIndex(_) => c.idx
    case Other(_) => 0
  }

  /** What any number of comparator calls may do to one word: it keeps its index and
      its backup byte, and once settled it no longer changes at all. */
  predicate CellEvolves(cmp: Order, c: Cell, c': Cell) {
    && c'.idx == c.idx
    && Upper(c'.data16) == Upper(c.data16)
    && (Settled(cmp, c) ==> c' == c)
  }

  predicate Evolves(cmp: Order, cells: seq<Cell>, cells': seq<Cell>) {
    && |cells'| == |cells|
    && forall i :: 0 <= i < |cells| ==> CellEvolves(cmp, cells[i], cells'[i])
  }

  lemma EvolvesTransitive(cmp: Order, a: seq<Cell>, b: seq<Cell>, c: seq<Cell>)
    requires Evolves(cmp, a, b) && Evolves(cmp, b, c)
    ensures Evolves(cmp, a, c)
  {
  }

  /** What the sort sees of a word: its key under the benchmark's own comparators, the word itself for
      any other, and whether that is final. */
  datatype Rank = Rank(settled: bool, key: int, cell: Cell)

  function RankOf(cmp: Order, c: Cell): Rank { Rank(Settled(cmp, c), Key(cmp, c), c) }

  /** The ranks of a list of words under a comparator. */
  datatype Ranking = Ranking(cmp: Order, at: seq<Rank>)

  function RanksOf(cmp: Order, cells: seq<Cell>): (r: Ranking)
    ensures |r.at| == |cells| && forall i :: 0 <= i < |cells| ==> r.at[i] == RankOf(cmp, cells[i])
  {
    Ranking(cmp, seq(|cells|, i requires 0 <= i < |cells| => RankOf(cmp, cells[i])))
  }

  /** The comparator does not put r behind s. */
  predicate Le(cmp: Order, r: Rank, s: Rank) { if cmp.Other? then cmp.f(r.cell, s.cell) <= 0 else r.key <= s.key }

  lemma LeTotal(cmp: Order, r: Rank, s: Rank)
    ensures Le(cmp, r, s) || Le(cmp, s, r)
  {
    if cmp.Other? {
      assert Comparable(cmp.f, r.cell, s.cell);
    }
  }

  lemma LeTransitive(cmp: Order, r: Rank, s: Rank, t: Rank)
    requires Le(cmp, r, s) && Le(cmp, s, t)
    ensures Le(cmp, r, t)
  {
    if cmp.Other? {
      assert Chains(cmp.f, r.cell, s.cell, t.cell);
    }
  }

  /** A final rank stays as it is. */
  ghost predicate Hardens(ranks: Ranking, ranks': Ranking) {
    && ranks'.cmp == ranks.cmp && |ranks'.at| == |ranks.at|
    && forall i :: 0 <= i < |ranks.at| && ranks.at[i].settled ==> ranks'.at[i] == ranks.at[i]
  }

  /** Node a comes strictly before node b in the stable order: both words are settled, a is not behind b,
      and if b is not behind a either, a was first. */
  predicate Before(ranks: Ranking, a: nat, b: nat) {
    && a < |ranks.at| && b < |ranks.at|
    && ranks.at[a].settled && ranks.at[b].settled
    && Le(ranks.cmp, ranks.at[a], ranks.at[b])
    && (Le(ranks.cmp, ranks.at[b], ranks.at[a]) ==> a < b)
  }

  predicate Injective(order: seq<nat>) {
    forall i, j :: 0 <= i < j < |order| ==> order[i] != order[j]
  }

  predicate InRange(order: seq<nat>, n: nat) {
    forall i :: 0 <= i < |order| ==> order[i] < n
  }

  /** `order` lists 0..n-1, each once. */
  predicate Permutation(order: seq<nat>, n: nat) {
    |order| == n && InRange(order, n) && Injective(order)
  }

  predicate Sorted(ranks: Ranking, order: seq<nat>) {
    forall i, j :: 0 <= i < j < |order| ==> Before(ranks, order[i], order[j])
  }

  /** One run of a bottom-up pass: positions lo..hi (clipped to the list) hold nodes
      whose original positions are in lo..hi, strictly ordered; nothing later reaches
      below lo. */
  predicate RunOk(ranks: Ranking, cur: seq<nat>, lo: nat, hi: nat) {
    && (forall i :: lo <= i < hi && i < |cur| ==> cur[i] < hi)
    && (forall i :: lo <= i < |cur| ==> lo <= cur[i])
    && (forall i, j :: lo <= i < j < hi && j < |cur| ==> Before(ranks, cur[i], cur[j]))
  }

  /** m runs of `size` nodes, added up. */
  function Times(m: nat, size: nat): nat {
    if m == 0 then 0 else Times(m - 1, size) + size
  }

  predicate RunAt(ranks: Ranking, cur: seq<nat>, size: nat, m: nat) {
    RunOk(ranks, cur, Times(m, size), Times(m, size) + size)
  }

  /** The list is cut into consecutive ordered runs of `size` nodes. */
  ghost predicate Runs(ranks: Ranking, cur: seq<nat>, size: nat) {
    forall m: nat :: RunAt(ranks, cur, size, m)
  }

  lemma BeforeTransitive(ranks: Ranking, a: nat, b: nat, c: nat)
    requires Before(ranks, a, b) && Before(ranks, b, c)
    ensures Before(ranks, a, c)
  {
    var r, s, t := ranks.at[a], ranks.at[b], ranks.at[c];
    LeTransitive(ranks.cmp, r, s, t);
    if Le(ranks.cmp, t, r) {
      LeTransitive(ranks.cmp, s, t, r);
      LeTransitive(ranks.cmp, t, r, s);
    }
  }

  lemma BeforeKept(ranks: Ranking, ranks': Ranking)
    requires Hardens(ranks, ranks')
    ensures forall a: nat, b: nat :: Before(ranks, a, b) ==> Before(ranks', a, b)
  {
  }

  lemma RunKept(ranks: Ranking, ranks': Ranking, cur: seq<nat>, lo: nat, hi: nat)
    requires Hardens(ranks, ranks') && RunOk(ranks, cur, lo, hi)
    ensures RunOk(ranks', cur, lo, hi)
  {
    BeforeKept(ranks, ranks');
  }

  lemma RunsKept(ranks: Ranking, ranks': Ranking, cur: seq<nat>, size: nat)
    requires Hardens(ranks, ranks') && Runs(ranks, cur, size)
    ensures Runs(ranks', cur, size)
  {
    forall m: nat ensures RunAt(ranks', cur, size, m) {
      assert RunAt(ranks, cur, size, m);
      RunKept(ranks, ranks', cur, Times(m, size), Times(m, size) + size);
    }
  }
}
