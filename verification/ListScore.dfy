/** What core_bench_list returns, read from the record of its searches (fpga/coremark/src/core_list_join.c). */
module ListScore {
  import opened ListCells
  import opened ListNodes
  import opened ListSort
  import opened ListOps
  import opened ListOrders
  import opened ListBench
  import Crc16

  // ----- the score

  /** A hit counts a word whose bits 0 and 9 are both set ... */
  lemma HitBits(d: bv16)
    ensures HitBit(d) == if BitSet(d, 0) && BitSet(d, 9) then 1 else 0
  {
  }

  /** ... and a miss one whose bit 8 is. */
  lemma MissBits(d: bv16)
    ensures MissBit(d) == if BitSet(d, 8) then 1 else 0
  {
  }

  /** The word turn i of the searches looks at: the first match of its search if there is one, and else the second
      word of the list once that is reversed. */
  ghost predicate LooksAt(cells: seq<Cell>, order: seq<nat>, idx: int, data16: int, hit: bool, x: nat) {
    && |order| == |cells| >= 2 && InRange(order, |cells|)
    && if hit then
      exists k :: 0 <= k < |order| && order[k] == x && Matches(cells[x], idx, data16) && forall i :: 0 <= i < k ==> !Matches(cells[order[i]], idx, data16)
    else
      x == order[|order| - 2] && forall i :: 0 <= i < |order| ==> !Matches(cells[order[i]], idx, data16)
  }

  /** The searches begin with a score of 0 ... */
  lemma ScoreBegins(cells: seq<Cell>, start: seq<nat>, idx: int, n: nat, orders: seq<seq<nat>>, counts: seq<Counts>)
    requires Searches(cells, start, idx, n, orders, counts)
    ensures Score(counts[0]) == 0
  {
  }

  /** ... and every turn adds 4 for a hit or takes 1 off for a miss, and adds a bit of the word it looks at: bits 0 and 9
      of the word found, or bit 8 of the second word; all in 16 bits. */
  lemma ScoreTurn(cells: seq<Cell>, orders: seq<seq<nat>>, counts: seq<Counts>, i: nat) returns (hit: bool, x: nat)
    requires Trace(cells, orders, counts) && i + 1 < |orders|
    ensures LooksAt(cells, orders[i], counts[i].idx, i % 0x100, hit, x)
    ensures x < |cells| && var d := cells[x].data16;
      Score(counts[i + 1]) == (Score(counts[i]) +
        if hit then 4 + (if BitSet(d, 0) && BitSet(d, 9) then 1 else 0) else (if BitSet(d, 8) then 1 else 0) - 1) % 0x1_0000
  {
    assert TurnOk(cells, orders, counts, i);
    var order := orders[i];
    var words := Arrange(cells, order);
    var k := FirstIn(words, counts[i].idx, i % 0x100);
    hit := k < |cells|;
    x := if hit then order[k] else order[|order| - 2];
    HitBits(cells[x].data16);
    MissBits(cells[x].data16);
    assert forall j :: 0 <= j < |order| ==> words[j] == cells[order[j]];
  }

  // ----- the checksum

  /** n copies of a word, one after the other. */
  function Copies(w: Crc16.Word, n: nat): (r: seq<bool>)
    ensures |r| == 16 * n
  {
    if n == 0 then [] else w + Copies(w, n - 1)
  }

  lemma {:induction false} CopiesAt(w: Crc16.Word, n: nat, i: nat)
    requires i < 16 * n
    ensures Copies(w, n)[i] == w[i % 16]
  {
    if i >= 16 {
      CopiesAt(w, n - 1, i - 16);
    }
  }

  lemma {:induction false} RepeatIsRegister(w: Crc16.Word, n: nat, crc: Crc16.Word)
    ensures Repeat(w, n, crc) == Crc16.Register(Copies(w, n), crc)
    decreases n
  {
    if n > 0 {
      Crc16.WordIsBits(w, crc);
      Crc16.RegisterAppend(w, Copies(w, n - 1), crc);
      RepeatIsRegister(w, n - 1, Crc16.Crcu16(w, crc));
    }
  }

  /** The stretch without the second word, whose first match is at position j of the whole list: the register over as
      many copies of the first word as there are nodes from the match to the end, or from the second remaining node if
      nothing matches. */
  lemma CrcRemovedMeans(words: seq<Cell>, idx: int, data16: int, crc: Crc16.Word, j: nat)
    requires |words| >= 3 && j <= |words| && j != 1
    requires forall i :: 0 <= i < j && i != 1 ==> !Matches(words[i], idx, data16)
    requires j < |words| ==> Matches(words[j], idx, data16)
    ensures CrcRemoved(words, idx, data16, crc) == Crc16.Register(
      Copies(ToWord(words[0].data16), if j == 0 then |words| - 1 else if j < |words| then |words| - j else |words| - 2), crc)
  {
    var rest := Without1(words);
    var k := if j == 0 then 0 else j - 1;
    assert forall i :: 0 <= i < k ==> rest[i] == words[if i == 0 then 0 else i + 1];
    assert k < |rest| ==> rest[k] == words[j];
    FirstIs(rest, idx, data16, k);
    RepeatIsRegister(ToWord(words[0].data16), |rest| - (if k < |rest| then k else 1), crc);
  }

  /** How many copies the first stretch feeds when its first match is at position j. */
  ghost predicate Stretch(words: seq<Cell>, idx: int, data16: int, j: nat, m: nat) {
    && j <= |words| && j != 1 && |words| >= 3
    && (forall i :: 0 <= i < j && i != 1 ==> !Matches(words[i], idx, data16))
    && (j < |words| ==> Matches(words[j], idx, data16))
    && m == if j == 0 then |words| - 1 else if j < |words| then |words| - j else |words| - 2
  }

  lemma BothStretches(words: seq<Cell>, idx: int, data16: int, j: nat, m: nat, v: Cell, n: nat, crc: Crc16.Word)
    requires Stretch(words, idx, data16, j, m) && n >= 1
    ensures Final(v, n, CrcRemoved(words, idx, data16, crc)) ==
      Crc16.Register(Copies(ToWord(words[0].data16), m) + Copies(ToWord(v.data16), n - 1), crc)
  {
    CrcRemovedMeans(words, idx, data16, crc, j);
    var w := ToWord(words[0].data16);
    RepeatIsRegister(ToWord(v.data16), n - 1, Crc16.Register(Copies(w, m), crc));
    Crc16.RegisterAppend(Copies(w, m), Copies(ToWord(v.data16), n - 1), crc);
  }

  /** What core_bench_list returns: the register, started from the score of the searches and fed with m copies of the first
      word in the order the data sort left, and then with one copy of the first word of the final list for every node
      behind it. */
  lemma ReturnValue(r: Record, cells: seq<Cell>, n: nat, j: nat, m: nat, score: Crc16.Word)
    requires Shaped(r, cells, n) && score == Crc16.BitsOf(Score(r.counts[n]), 16)
    requires Stretch(Arrange(r.cells2, r.order2), r.counts[n].idx, LastByte(n), j, m)
    ensures Outcome(r, cells, n) == Crc16.Register(
      Copies(ToWord(r.cells2[r.order2[0]].data16), m) + Copies(ToWord(RegenAll(cells)[r.order3[0]].data16), |cells| - 1),
      score)
  {
    var words, v := Arrange(r.cells2, r.order2), RegenAll(cells)[r.order3[0]];
    BothStretches(words, r.counts[n].idx, LastByte(n), j, m, v, |cells|, score);
  }
}
