/** core_list_mergesort: the in-place bottom-up merge sort over `next` pointers. */
module ListSort {
  import opened ListCells
  import opened ListNodes
  import opened Modulus

  /** `list`..`tail` is the chain of the nodes `out`; the last `next` is not fixed yet.
      Here and below `nx` is a snapshot of all `next` fields. */
  ghost predicate Chained(nodes: seq<ListHead>, nx: seq<ListHead?>, out: seq<nat>, list: ListHead?, tail: ListHead?)
    requires |nx| == |nodes| && InRange(out, |nodes|)
  {
    && (out == [] ==> list == null && tail == null)
    && (out != [] ==> list == nodes[out[0]] && tail == nodes[out[|out|-1]])
    && (forall i {:trigger nx[out[i]]} :: 0 <= i < |out| - 1 ==> nx[out[i]] == NodeAt(nodes, out, i + 1))
  }

  /** Positions lo..hi of the incoming list still have their incoming `next`. */
  ghost predicate Untouched(nodes: seq<ListHead>, nx: seq<ListHead?>, cur: seq<nat>, lo: nat, hi: nat)
    requires |nx| == |nodes| && InRange(cur, |nodes|) && hi <= |cur|
  {
    forall i {:trigger nx[cur[i]]} :: lo <= i < hi ==> nx[cur[i]] == NodeAt(nodes, cur, i + 1)
  }

  /** No node of `out` sits at positions lo..hi of `cur`. */
  predicate Apart(out: seq<nat>, cur: seq<nat>, lo: nat, hi: nat)
    requires hi <= |cur|
  {
    forall i, j :: 0 <= j < |out| && lo <= i < hi ==> out[j] != cur[i]
  }

  /** All of `out` from k on comes before positions lo..hi of `cur`. */
  predicate Precedes(ranks: Ranking, out: seq<nat>, k: nat, cur: seq<nat>, lo: nat, hi: nat)
    requires hi <= |cur|
  {
    forall i, j :: k <= j < |out| && lo <= i < hi ==> Before(ranks, out[j], cur[i])
  }

  predicate Ordered(ranks: Ranking, out: seq<nat>, k: nat) {
    forall i, j :: k <= i < j < |out| ==> Before(ranks, out[i], out[j])
  }

  /** Which nodes the merge of runs k..mid and mid..hi has emitted when it stands at pi and qi. */
  ghost predicate Emitted(cur: seq<nat>, k: nat, mid: nat, hi: nat, pi: nat, qi: nat, out: seq<nat>) {
    && k <= pi <= mid <= qi <= hi <= |cur|
    && |out| == pi + (qi - mid)
    && Permutation(cur, |cur|) && InRange(out, |cur|) && Injective(out)
    && Apart(out, cur, pi, mid) && Apart(out, cur, qi, |cur|)
    && (forall i :: k <= i < |out| ==> k <= out[i] < hi)
  }

  /** What the merge has established when it has emitted `out` and stands at positions pi and qi. */
  ghost predicate Merging(ranks: Ranking, cur: seq<nat>, k: nat, mid: nat, hi: nat,
                          pi: nat, qi: nat, out: seq<nat>)
  {
    && Emitted(cur, k, mid, hi, pi, qi, out)
    && RunOk(ranks, cur, k, mid) && RunOk(ranks, cur, mid, hi)
    && Ordered(ranks, out, k)
    && Precedes(ranks, out, k, cur, pi, mid)
    && Precedes(ranks, out, k, cur, qi, hi)
  }

  lemma MergingKept(ranks: Ranking, ranks': Ranking, cur: seq<nat>, k: nat, mid: nat, hi: nat,
                    pi: nat, qi: nat, out: seq<nat>)
    requires Hardens(ranks, ranks')
    requires Merging(ranks, cur, k, mid, hi, pi, qi, out)
    ensures Merging(ranks', cur, k, mid, hi, pi, qi, out)
  {
    BeforeKept(ranks, ranks');
  }

  lemma PrecedesRun(ranks: Ranking, x: nat, cur: seq<nat>, lo: nat, from: nat, hi: nat)
    requires RunOk(ranks, cur, lo, hi) && lo <= from <= hi <= |cur|
    requires from < hi ==> Before(ranks, x, cur[from])
    ensures forall i :: from <= i < hi ==> Before(ranks, x, cur[i])
  {
    forall i | from < i < hi ensures Before(ranks, x, cur[i]) {
      BeforeTransitive(ranks, x, cur[from], cur[i]);
    }
  }

  lemma Emit(ranks: Ranking, out: seq<nat>, k: nat, x: nat, cur: seq<nat>, lo: nat, hi: nat)
    requires hi <= |cur| && Precedes(ranks, out, k, cur, lo, hi)
    requires forall i :: lo <= i < hi ==> Before(ranks, x, cur[i])
    ensures Precedes(ranks, out + [x], k, cur, lo, hi)
  {
  }

  lemma EmitOrdered(ranks: Ranking, out: seq<nat>, k: nat, x: nat)
    requires Ordered(ranks, out, k)
    requires forall j :: k <= j < |out| ==> Before(ranks, out[j], x)
    ensures Ordered(ranks, out + [x], k)
  {
  }

  lemma EmitP(ranks: Ranking, cur: seq<nat>, k: nat, mid: nat, hi: nat, pi: nat, qi: nat, out: seq<nat>)
    requires Emitted(cur, k, mid, hi, pi, qi, out) && pi < mid && RunOk(ranks, cur, k, mid)
    ensures Emitted(cur, k, mid, hi, pi + 1, qi, out + [cur[pi]])
  {
  }

  lemma EmitQ(ranks: Ranking, cur: seq<nat>, k: nat, mid: nat, hi: nat, pi: nat, qi: nat, out: seq<nat>)
    requires Emitted(cur, k, mid, hi, pi, qi, out) && qi < hi && RunOk(ranks, cur, mid, hi)
    ensures Emitted(cur, k, mid, hi, pi, qi + 1, out + [cur[qi]])
  {
  }

  lemma TakeP(ranks: Ranking, cur: seq<nat>, k: nat, mid: nat, hi: nat,
              pi: nat, qi: nat, out: seq<nat>)
    requires Merging(ranks, cur, k, mid, hi, pi, qi, out) && pi < mid
    requires qi < hi ==> Before(ranks, cur[pi], cur[qi])
    ensures Merging(ranks, cur, k, mid, hi, pi + 1, qi, out + [cur[pi]])
  {
    EmitP(ranks, cur, k, mid, hi, pi, qi, out);
    PrecedesRun(ranks, cur[pi], cur, mid, qi, hi);
    Emit(ranks, out, k, cur[pi], cur, pi + 1, mid);
    Emit(ranks, out, k, cur[pi], cur, qi, hi);
    EmitOrdered(ranks, out, k, cur[pi]);
  }

  lemma TakeQ(ranks: Ranking, cur: seq<nat>, k: nat, mid: nat, hi: nat,
              pi: nat, qi: nat, out: seq<nat>)
    requires Merging(ranks, cur, k, mid, hi, pi, qi, out) && qi < hi
    requires pi < mid ==> Before(ranks, cur[qi], cur[pi])
    ensures Merging(ranks, cur, k, mid, hi, pi, qi + 1, out + [cur[qi]])
  {
    EmitQ(ranks, cur, k, mid, hi, pi, qi, out);
    PrecedesRun(ranks, cur[qi], cur, k, pi, mid);
    Emit(ranks, out, k, cur[qi], cur, pi, mid);
    Emit(ranks, out, k, cur[qi], cur, qi + 1, hi);
    EmitOrdered(ranks, out, k, cur[qi]);
  }

  /** The pointers of a merge standing at positions pi and qi. */
  ghost predicate Standing(nodes: seq<ListHead>, nx: seq<ListHead?>, cur: seq<nat>, mid: nat, pi: nat, qi: nat,
                           out: seq<nat>, p: ListHead?, q: ListHead?, list: ListHead?, tail: ListHead?)
    requires |nx| == |cur| == |nodes| && InRange(cur, |nodes|) && InRange(out, |nodes|)
    requires pi <= mid <= qi <= |nodes|
  {
    && (pi < mid ==> p == nodes[cur[pi]])
    && q == NodeAt(nodes, cur, qi)
    && Chained(nodes, nx, out, list, tail)
    && Untouched(nodes, nx, cur, pi, mid) && Untouched(nodes, nx, cur, qi, |nodes|)
  }

  /** Linking `x` behind the last node of `out`. */
  ghost function Linked(nodes: seq<ListHead>, nx: seq<ListHead?>, out: seq<nat>, x: nat): seq<ListHead?>
    requires |nx| == |nodes| && InRange(out, |nodes|) && x < |nodes|
  {
    if out == [] then nx else nx[out[|out|-1] := nodes[x]]
  }

  lemma LinkedChain(nodes: seq<ListHead>, nx: seq<ListHead?>, out: seq<nat>, x: nat,
                    list: ListHead?, tail: ListHead?)
    requires |nx| == |nodes| && InRange(out, |nodes|) && Injective(out) && x < |nodes|
    requires Chained(nodes, nx, out, list, tail)
    ensures InRange(out + [x], |nodes|)
    ensures Chained(nodes, Linked(nodes, nx, out, x), out + [x], if out == [] then nodes[x] else list, nodes[x])
  {
  }

  lemma LinkedUntouched(nodes: seq<ListHead>, nx: seq<ListHead?>, out: seq<nat>, x: nat, cur: seq<nat>, lo: nat, hi: nat)
    requires |nx| == |nodes| && InRange(out, |nodes|) && x < |nodes|
    requires InRange(cur, |nodes|) && hi <= |cur| && Apart(out, cur, lo, hi)
    requires Untouched(nodes, nx, cur, lo, hi)
    ensures Untouched(nodes, Linked(nodes, nx, out, x), cur, lo, hi)
  {
  }

  /** Linking node e behind the tail, or making it the head of an empty list. */
  method Append(list0: ListHead?, tail0: ListHead?, e: ListHead, ghost cmp: Order,
                ghost nodes: seq<ListHead>, ghost infos: seq<ListData>, ghost out: seq<nat>, ghost x: nat)
    returns (list: ListHead?, tail: ListHead?)
    requires Carries(nodes, infos) && InRange(out, |nodes|)
    requires x < |nodes| && e == nodes[x]
    requires tail0 == if out == [] then null else nodes[out[|out|-1]]
    modifies nodes`next
    ensures list == (if out == [] then nodes[x] else list0) && tail == nodes[x]
    ensures Nexts(nodes) == Linked(nodes, old(Nexts(nodes)), out, x)
    ensures Carries(nodes, infos) && Ranks(cmp, infos) == old(Ranks(cmp, infos)) && Cells(infos) == old(Cells(infos))
  {
    list := list0;
    if tail0 != null {
      ghost var last := out[|out|-1];
      forall i: nat | i < |nodes| && i != last ensures nodes[i] != tail0 {
        assert Differ(nodes, i, last);
      }
      tail0.next := e;
    } else {
      list := e;
    }
    tail := e;
  }

  /** Which run the next node comes from; the comparator is called only when both runs
      are non-empty. */
  method FromP(cmp: Order, res: Results?, p: ListHead?, q: ListHead?, psize: int, qsize: int,
               ghost nodes: seq<ListHead>, ghost infos: seq<ListData>, ghost a: nat, ghost b: nat)
    returns (fromP: bool, ghost calls: nat)
    requires cmp.ByData? ==> res != null
    requires Carries(nodes, infos)
    requires psize > 0 ==> a < |nodes| && p == nodes[a]
    requires qsize > 0 && q != null ==> b < |nodes| && q == nodes[b] && (psize > 0 ==> a != b)
    requires psize >= 0 && qsize >= 0 && (psize > 0 || (qsize > 0 && q != null))
    modifies infos`data16, res
    ensures Carries(nodes, infos) && Nexts(nodes) == old(Nexts(nodes))
    ensures Evolves(cmp, old(Cells(infos)), Cells(infos)) && Hardens(old(Ranks(cmp, infos)), Ranks(cmp, infos))
    ensures fromP ==> psize > 0 && (qsize > 0 && q != null ==> Ordered2(Ranks(cmp, infos), a, b, true))
    ensures !fromP ==> qsize > 0 && q != null && (psize > 0 ==> Ordered2(Ranks(cmp, infos), a, b, false))
    ensures calls <= 1 && (psize == 0 || qsize == 0 || q == null ==> calls == 0)
  {
    calls := 0;
    if psize == 0 {
      fromP := false;
    } else if qsize == 0 || q == null {
      fromP := true;
    } else {
      assert p.info == infos[a] && q.info == infos[b] && Differ(infos, a, b);
      var c := Compare(cmp, p.info, q.info, res);
      calls, fromP := 1, c <= 0;
    }
  }

  predicate Ordered2(ranks: Ranking, a: nat, b: nat, le: bool) {
    && a < |ranks.at| && b < |ranks.at| && ranks.at[a].settled && ranks.at[b].settled
    && (le <==> Le(ranks.cmp, ranks.at[a], ranks.at[b]))
  }

  /** The two halves of one loop iteration on values: the chosen node keeps the output ordered ... */
  lemma Chosen(ranks: Ranking, ranks': Ranking, cur: seq<nat>, k: nat, mid: nat, hi: nat,
               pi: nat, qi: nat, out: seq<nat>, fromP: bool, pi': nat, qi': nat, x: nat)
    requires pi' == (if fromP then pi + 1 else pi) && qi' == (if fromP then qi else qi + 1)
    requires Hardens(ranks, ranks') && Merging(ranks, cur, k, mid, hi, pi, qi, out)
    requires fromP ==> pi < mid && (qi < hi ==> Ordered2(ranks', cur[pi], cur[qi], true))
    requires !fromP ==> qi < hi && (pi < mid ==> Ordered2(ranks', cur[pi], cur[qi], false))
    requires x == if fromP then cur[pi] else cur[qi]
    ensures Merging(ranks', cur, k, mid, hi, pi', qi', out + [x])
  {
    MergingKept(ranks, ranks', cur, k, mid, hi, pi, qi, out);
    if fromP {
      assert qi < hi ==> cur[pi] < mid <= cur[qi];
      TakeP(ranks', cur, k, mid, hi, pi, qi, out);
    } else {
      if pi < mid {
        LeTotal(ranks'.cmp, ranks'.at[cur[pi]], ranks'.at[cur[qi]]);
      }
      TakeQ(ranks', cur, k, mid, hi, pi, qi, out);
    }
  }

  /** ... and leaves the chain and the rest of both runs in place. */
  lemma Moved(nodes: seq<ListHead>, nx: seq<ListHead?>, cur: seq<nat>, mid: nat, pi: nat, qi: nat,
              out: seq<nat>, p: ListHead?, q: ListHead?, list: ListHead?, tail: ListHead?, fromP: bool, x: nat,
              pi': nat, qi': nat, p': ListHead?, q': ListHead?)
    requires |nx| == |cur| == |nodes| && Permutation(cur, |nodes|) && InRange(out, |nodes|) && Injective(out)
    requires pi <= mid <= qi <= |nodes| && (if fromP then pi < mid else qi < |nodes|)
    requires x == if fromP then cur[pi] else cur[qi]
    requires Apart(out, cur, pi, mid) && Apart(out, cur, qi, |cur|)
    requires Standing(nodes, nx, cur, mid, pi, qi, out, p, q, list, tail)
    requires pi' == (if fromP then pi + 1 else pi) && qi' == (if fromP then qi else qi + 1)
    requires p' == (if fromP then nx[x] else p) && q' == (if fromP then q else nx[x])
    ensures InRange(out + [x], |nodes|)
    ensures Standing(nodes, Linked(nodes, nx, out, x), cur, mid, pi', qi', out + [x], p', q',
                     if out == [] then nodes[x] else list, nodes[x])
  {
    LinkedChain(nodes, nx, out, x, list, tail);
    LinkedUntouched(nodes, nx, out, x, cur, pi, mid);
    LinkedUntouched(nodes, nx, out, x, cur, qi, |nodes|);
  }

  /** The whole state of a merge. */
  ghost predicate InMerge(cmp: Order, nodes: seq<ListHead>, infos: seq<ListData>, cur: seq<nat>,
                          k: nat, mid: nat, hi: nat, pi: nat, qi: nat, out: seq<nat>,
                          p: ListHead?, q: ListHead?, list: ListHead?, tail: ListHead?)
    reads nodes, infos
  {
    && Carries(nodes, infos) && |cur| == |nodes|
    && Merging(Ranks(cmp, infos), cur, k, mid, hi, pi, qi, out)
    && Standing(nodes, Nexts(nodes), cur, mid, pi, qi, out, p, q, list, tail)
  }

  /** One iteration of the merge loop, standing at positions pi and qi. */
  method MergeStep(cmp: Order, res: Results?, p0: ListHead?, q0: ListHead?, psize0: int, qsize0: int,
                   list0: ListHead?, tail0: ListHead?,
                   ghost nodes: seq<ListHead>, ghost infos: seq<ListData>, ghost cur: seq<nat>,
                   ghost k: nat, ghost mid: nat, ghost hi: nat, ghost pi0: nat, ghost qi0: nat, ghost out0: seq<nat>)
    returns (p: ListHead?, q: ListHead?, psize: int, qsize: int, list: ListHead?, tail: ListHead?,
             ghost pi: nat, ghost qi: nat, ghost out: seq<nat>, ghost calls: nat)
    requires cmp.ByData? ==> res != null
    requires InMerge(cmp, nodes, infos, cur, k, mid, hi, pi0, qi0, out0, p0, q0, list0, tail0)
    requires psize0 == mid - pi0 && qsize0 >= 0 && (qsize0 > 0 && q0 != null <==> qi0 < hi) && (pi0 < mid || qi0 < hi)
    modifies nodes`next, infos`data16, res
    ensures InMerge(cmp, nodes, infos, cur, k, mid, hi, pi, qi, out, p, q, list, tail)
    ensures Evolves(cmp, old(Cells(infos)), Cells(infos)) && Hardens(old(Ranks(cmp, infos)), Ranks(cmp, infos))
    ensures calls <= 1 && (pi0 == mid || qi0 == hi ==> calls == 0)
    ensures |out| == |out0| + 1 && out[..|out0|] == out0
    ensures pi0 <= pi && qi0 <= qi && psize0 - psize == pi - pi0 && qsize0 - qsize == qi - qi0
  {
    ghost var a, b := if pi0 < mid then cur[pi0] else 0, if qi0 < hi then cur[qi0] else 0;
    ghost var ranks, nx := Ranks(cmp, infos), Nexts(nodes);
    var fromP;
    fromP, calls := FromP(cmp, res, p0, q0, psize0, qsize0, nodes, infos, a, b);
    ghost var x: nat := if fromP then a else b;
    p, q, psize, qsize, pi, qi, out := p0, q0, psize0, qsize0, pi0, qi0, out0 + [x];
    var e: ListHead;
    if fromP {
      e, p, psize, pi := p, p.next, psize - 1, pi + 1;
    } else {
      e, q, qsize, qi := q, q.next, qsize - 1, qi + 1;
    }
    Chosen(ranks, Ranks(cmp, infos), cur, k, mid, hi, pi0, qi0, out0, fromP, pi, qi, x);
    Moved(nodes, nx, cur, mid, pi0, qi0, out0, p0, q0, list0, tail0, fromP, x, pi, qi, p, q);
    list, tail := Append(list0, tail0, e, cmp, nodes, infos, out0, x);
  }

  /** The counters of the merge loop. */
  ghost predicate Counting(psize: int, qsize: int, qsize0: int, mid: nat, hi: nat, pi: nat, qi: nat, n: nat) {
    && psize == mid - pi && qsize == qsize0 - (qi - mid) && qsize0 > 0
    && hi == (if mid + qsize0 <= n then mid + qsize0 else n) && pi <= mid <= qi <= hi
  }

  /** What a merge has done since its words were cells0. */
  ghost predicate Since(cmp: Order, infos: seq<ListData>, cells0: seq<Cell>, ranks0: Ranking)
    reads infos
  {
    Evolves(cmp, cells0, Cells(infos)) && Hardens(ranks0, Ranks(cmp, infos))
  }

  /** One turn of the merge loop with everything the loop keeps. */
  method MergeTurn(cmp: Order, res: Results?, p0: ListHead?, q0: ListHead?, psize0: int, qsize0: int,
                   list0: ListHead?, tail0: ListHead?,
                   ghost nodes: seq<ListHead>, ghost infos: seq<ListData>, ghost cur: seq<nat>,
                   ghost k: nat, ghost mid: nat, ghost hi: nat, ghost pi0: nat, ghost qi0: nat, ghost out0: seq<nat>,
                   ghost all: int, ghost cells0: seq<Cell>, ghost ranks0: Ranking)
    returns (p: ListHead?, q: ListHead?, psize: int, qsize: int, list: ListHead?, tail: ListHead?,
             ghost pi: nat, ghost qi: nat, ghost out: seq<nat>, ghost calls: nat)
    requires cmp.ByData? ==> res != null
    requires InMerge(cmp, nodes, infos, cur, k, mid, hi, pi0, qi0, out0, p0, q0, list0, tail0)
    requires Counting(psize0, qsize0, all, mid, hi, pi0, qi0, |nodes|) && (psize0 > 0 || (qsize0 > 0 && q0 != null))
    requires Since(cmp, infos, cells0, ranks0)
    modifies nodes`next, infos`data16, res
    ensures InMerge(cmp, nodes, infos, cur, k, mid, hi, pi, qi, out, p, q, list, tail)
    ensures Counting(psize, qsize, all, mid, hi, pi, qi, |nodes|) && pi + qi == pi0 + qi0 + 1
    ensures q == null <==> qi >= |nodes|
    ensures Since(cmp, infos, cells0, ranks0)
    ensures |out| == |out0| + 1 && out[..k] == out0[..k]
    ensures calls <= 1 && (pi0 == mid || qi0 == hi ==> calls == 0)
  {
    ghost var cells := Cells(infos);
    p, q, psize, qsize, list, tail, pi, qi, out, calls :=
      MergeStep(cmp, res, p0, q0, psize0, qsize0, list0, tail0, nodes, infos, cur, k, mid, hi, pi0, qi0, out0);
    EvolvesTransitive(cmp, cells0, cells, Cells(infos));
    PrefixKept(out, out0, k);
  }

  /** The merge loop of one pair of runs: positions k..mid and mid..hi of `cur`. */
  method Merge(cmp: Order, res: Results?, p0: ListHead, q0: ListHead?, psize0: int, qsize0: int,
               list0: ListHead?, tail0: ListHead?,
               ghost nodes: seq<ListHead>, ghost infos: seq<ListData>, ghost cur: seq<nat>,
               ghost k: nat, ghost mid: nat, ghost hi: nat, ghost out0: seq<nat>)
    returns (q: ListHead?, list: ListHead?, tail: ListHead?, ghost out: seq<nat>, ghost calls: nat)
    requires cmp.ByData? ==> res != null
    requires InMerge(cmp, nodes, infos, cur, k, mid, hi, k, mid, out0, p0, q0, list0, tail0)
    requires k < mid && Counting(psize0, qsize0, qsize0, mid, hi, k, mid, |nodes|) && (q0 == null <==> mid >= |nodes|)
    modifies nodes`next, infos`data16, res
    ensures InMerge(cmp, nodes, infos, cur, k, mid, hi, mid, hi, out, null, q, list, tail)
    ensures Since(cmp, infos, old(Cells(infos)), old(Ranks(cmp, infos)))
    ensures out[..k] == out0
    ensures calls < hi - k
  {
    ghost var cells0, ranks0 := Cells(infos), Ranks(cmp, infos);
    var p: ListHead? := p0;
    q, list, tail, out, calls := q0, list0, tail0, out0, 0;
    var psize, qsize := psize0, qsize0;
    ghost var pi: nat, qi: nat := k, mid;
    while psize > 0 || (qsize > 0 && q != null)
      invariant InMerge(cmp, nodes, infos, cur, k, mid, hi, pi, qi, out, p, q, list, tail)
      invariant Counting(psize, qsize, qsize0, mid, hi, pi, qi, |nodes|) && (q == null <==> qi >= |nodes|)
      invariant out[..k] == out0
      invariant Since(cmp, infos, cells0, ranks0)
      invariant calls <= |out| - k && (pi == mid && qi == hi ==> calls < |out| - k)
      decreases mid - pi + hi - qi
    {
      ghost var called := 0;
      p, q, psize, qsize, list, tail, pi, qi, out, called :=
        MergeTurn(cmp, res, p, q, psize, qsize, list, tail, nodes, infos, cur, k, mid, hi, pi, qi, out, qsize0, cells0, ranks0);
      calls := calls + called;
    }
    assert pi == mid && qi == hi;
  }

  lemma PrefixKept(out: seq<nat>, out0: seq<nat>, k: nat)
    requires k <= |out0| <= |out| && out[..|out0|] == out0
    ensures out[..k] == out0[..k]
  {
  }

  function Min(a: int, b: int): int { if a <= b then a else b }

  /** The first m runs of `size` nodes of an output under construction. */
  ghost predicate RunsUpTo(ranks: Ranking, out: seq<nat>, size: nat, m: nat) {
    forall j: nat :: j < m ==> RunAt(ranks, out, size, j)
  }

  /** A pass over runs of `size` nodes that has merged m pairs of them into `out`. */
  ghost predicate Passing(ranks: Ranking, cur: seq<nat>, size: nat, m: nat, out: seq<nat>) {
    && size > 0 && Permutation(cur, |cur|) && Runs(ranks, cur, size)
    && |out| == Min(Times(m, 2 * size), |cur|)
    && InRange(out, |cur|) && Injective(out) && Apart(out, cur, |out|, |cur|)
    && RunsUpTo(ranks, out, 2 * size, m)
  }

  lemma ClipRun(ranks: Ranking, cur: seq<nat>, lo: nat, hi: nat)
    requires RunOk(ranks, cur, lo, hi) && InRange(cur, |cur|)
    ensures RunOk(ranks, cur, lo, Min(hi, |cur|))
  {
  }

  lemma BeginMerge(ranks: Ranking, cur: seq<nat>, size: nat, m: nat, out: seq<nat>, mid: nat, hi: nat)
    requires Passing(ranks, cur, size, m, out) && |out| < |cur|
    requires mid == Min(|out| + size, |cur|) && hi == Min(mid + size, |cur|)
    ensures Merging(ranks, cur, |out|, mid, hi, |out|, mid, out)
  {
    NextRuns(ranks, cur, size, m);
    ClipRuns(ranks, cur, |out|, size, mid, hi);
  }

  lemma ClipRuns(ranks: Ranking, cur: seq<nat>, k: nat, size: nat, mid: nat, hi: nat)
    requires InRange(cur, |cur|) && k < |cur| && mid == Min(k + size, |cur|) && hi == Min(mid + size, |cur|)
    requires RunOk(ranks, cur, k, k + size) && RunOk(ranks, cur, k + size, k + size + size)
    ensures RunOk(ranks, cur, k, mid) && RunOk(ranks, cur, mid, hi)
  {
    ClipRun(ranks, cur, k, k + size);
    ClipRun(ranks, cur, k + size, k + size + size);
  }

  /** The two runs the next merge takes. */
  lemma NextRuns(ranks: Ranking, cur: seq<nat>, size: nat, m: nat)
    requires Runs(ranks, cur, size)
    ensures var k := Times(m, 2 * size); RunOk(ranks, cur, k, k + size) && RunOk(ranks, cur, k + size, k + size + size)
  {
    TimesDouble(m, size);
    assert RunAt(ranks, cur, size, 2 * m) && RunAt(ranks, cur, size, 2 * m + 1);
  }

  lemma RunExtended(ranks: Ranking, out0: seq<nat>, out: seq<nat>, lo: nat, hi: nat)
    requires RunOk(ranks, out0, lo, hi) && lo <= hi <= |out0| <= |out| && out[..|out0|] == out0
    requires forall i :: |out0| <= i < |out| ==> |out0| <= out[i]
    ensures RunOk(ranks, out, lo, hi)
  {
    assert forall i :: 0 <= i < |out0| ==> out[i] == out0[i];
  }

  lemma EndMerge(ranks: Ranking, cur: seq<nat>, size: nat, m: nat, out0: seq<nat>, out: seq<nat>, mid: nat, hi: nat)
    requires Passing(ranks, cur, size, m, out0) && |out0| < |cur|
    requires mid == Min(|out0| + size, |cur|) && hi == Min(mid + size, |cur|)
    requires Merging(ranks, cur, |out0|, mid, hi, mid, hi, out) && out[..|out0|] == out0
    ensures Passing(ranks, cur, size, m + 1, out)
  {
    var s2 := 2 * size;
    forall j: nat | j < m + 1 ensures RunAt(ranks, out, s2, j) {
      if j < m {
        RunStays(ranks, cur, size, m, out0, out, j);
      } else {
        assert RunOk(ranks, out, |out0|, |out0| + s2);
      }
    }
  }

  lemma RunStays(ranks: Ranking, cur: seq<nat>, size: nat, m: nat, out0: seq<nat>, out: seq<nat>, j: nat)
    requires Passing(ranks, cur, size, m, out0) && |out0| < |cur| && j < m
    requires |out0| <= |out| && out[..|out0|] == out0 && forall i :: |out0| <= i < |out| ==> |out0| <= out[i]
    ensures RunAt(ranks, out, 2 * size, j)
  {
    assert RunAt(ranks, out0, 2 * size, j);
    StepsBelow(j, m, 2 * size);
    RunExtended(ranks, out0, out, Times(j, 2 * size), Times(j, 2 * size) + 2 * size);
  }

  lemma {:induction false} StepsBelow(j: nat, m: nat, s: nat)
    requires j < m
    ensures Times(j, s) + s <= Times(m, s)
  {
    if j + 1 < m {
      StepsBelow(j, m - 1, s);
    }
  }

  lemma {:induction false} TimesDouble(m: nat, s: nat)
    ensures Times(m, 2 * s) == Times(2 * m, s)
  {
    if m > 0 {
      TimesDouble(m - 1, s);
      assert Times(2 * m - 1, s) == Times(2 * m - 2, s) + s;
    }
  }

  lemma PassingKept(ranks: Ranking, ranks': Ranking, cur: seq<nat>, size: nat, m: nat, out: seq<nat>)
    requires Hardens(ranks, ranks') && Passing(ranks, cur, size, m, out)
    ensures Passing(ranks', cur, size, m, out)
  {
    RunsKept(ranks, ranks', cur, size);
    forall j: nat | j < m ensures RunAt(ranks', out, 2 * size, j) {
      assert RunAt(ranks, out, 2 * size, j);
      RunKept(ranks, ranks', out, Times(j, 2 * size), Times(j, 2 * size) + 2 * size);
    }
  }

  lemma EndPass(ranks: Ranking, cur: seq<nat>, size: nat, m: nat, out: seq<nat>)
    requires Passing(ranks, cur, size, m, out) && |out| == |cur|
    ensures Runs(ranks, out, 2 * size) && Permutation(out, |cur|)
  {
    var s2 := 2 * size;
    forall j: nat ensures RunAt(ranks, out, s2, j) {
      if j >= m {
        if m < j {
          StepsBelow(m, j, s2);
        }
      }
    }
  }

  /** A pass is the last one when a single merge covered the list. */
  lemma CountMerges(ranks: Ranking, cur: seq<nat>, size: nat, m: nat, out: seq<nat>)
    requires Passing(ranks, cur, size, m, out)
    ensures m >= 1 && |out| < |cur| ==> |cur| > 2 * size
    ensures m <= 1 && |out| == |cur| ==> |cur| <= 2 * size
  {
    assert Times(1, 2 * size) == 2 * size;
    if m > 1 {
      StepsBelow(1, m, 2 * size);
    }
  }

  lemma BeginStanding(nodes: seq<ListHead>, nx: seq<ListHead?>, cur: seq<nat>, k: nat, mid: nat,
                      out: seq<nat>, p: ListHead?, q: ListHead?, list: ListHead?, tail: ListHead?)
    requires |nx| == |cur| == |nodes| && InRange(cur, |nodes|) && InRange(out, |nodes|)
    requires k <= mid <= |cur| && p == NodeAt(nodes, cur, k) && q == NodeAt(nodes, cur, mid)
    requires Chained(nodes, nx, out, list, tail) && Untouched(nodes, nx, cur, k, |nodes|)
    ensures Standing(nodes, nx, cur, mid, k, mid, out, p, q, list, tail)
  {
  }

  /** Stepping `insize` places along from p. */
  method StepAlong(p: ListHead, insize: int, ghost nodes: seq<ListHead>, ghost cur: seq<nat>, ghost k: nat)
    returns (q: ListHead?, psize: int, ghost mid: nat)
    requires |cur| == |nodes| && InRange(cur, |nodes|) && k < |cur| && p == nodes[cur[k]] && insize > 0
    requires Untouched(nodes, Nexts(nodes), cur, k, |cur|)
    ensures k < mid == k + psize && mid == Min(k + insize, |cur|) && q == NodeAt(nodes, cur, mid)
  {
    q, psize := p, 0;
    var i := 0;
    while i < insize
      invariant 0 <= i <= insize && psize == i && k + psize < |cur| && q == NodeAt(nodes, cur, k + psize)
    {
      psize := psize + 1;
      assert q.next == Nexts(nodes)[cur[k + i]];
      q := q.next;
      if q == null {
        break;
      }
      i := i + 1;
    }
    mid := k + psize;
  }

  lemma BeginPass(ranks: Ranking, cur: seq<nat>, size: nat)
    requires size > 0 && Permutation(cur, |cur|) && Runs(ranks, cur, size)
    ensures Passing(ranks, cur, size, 0, [])
  {
  }

  /** The whole state of a pass that has merged m pairs of runs into `out`. */
  ghost predicate InPass(cmp: Order, nodes: seq<ListHead>, infos: seq<ListData>, cur: seq<nat>, size: nat,
                         m: nat, out: seq<nat>, p: ListHead?, list: ListHead?, tail: ListHead?)
    reads nodes, infos
  {
    && Carries(nodes, infos) && |cur| == |nodes|
    && Passing(Ranks(cmp, infos), cur, size, m, out)
    && p == NodeAt(nodes, cur, |out|)
    && Chained(nodes, Nexts(nodes), out, list, tail)
    && Untouched(nodes, Nexts(nodes), cur, |out|, |nodes|)
  }

  lemma BeginPair(cmp: Order, nodes: seq<ListHead>, infos: seq<ListData>, cur: seq<nat>, size: nat,
                  m: nat, out: seq<nat>, p: ListHead?, q: ListHead?, list: ListHead?, tail: ListHead?, mid: nat, hi: nat)
    requires InPass(cmp, nodes, infos, cur, size, m, out, p, list, tail) && |out| < |nodes|
    requires mid == Min(|out| + size, |nodes|) && hi == Min(mid + size, |nodes|) && q == NodeAt(nodes, cur, mid)
    ensures InMerge(cmp, nodes, infos, cur, |out|, mid, hi, |out|, mid, out, p, q, list, tail)
  {
    BeginMerge(Ranks(cmp, infos), cur, size, m, out, mid, hi);
    BeginStanding(nodes, Nexts(nodes), cur, |out|, mid, out, p, q, list, tail);
  }

  lemma EndPair(cmp: Order, nodes: seq<ListHead>, infos: seq<ListData>, cur: seq<nat>, size: nat,
                m: nat, out0: seq<nat>, out: seq<nat>, q: ListHead?, list: ListHead?, tail: ListHead?,
                mid: nat, hi: nat, ranks0: Ranking)
    requires Passing(ranks0, cur, size, m, out0) && |out0| < |cur| && Hardens(ranks0, Ranks(cmp, infos))
    requires mid == Min(|out0| + size, |cur|) && hi == Min(mid + size, |cur|)
    requires InMerge(cmp, nodes, infos, cur, |out0|, mid, hi, mid, hi, out, null, q, list, tail)
    requires out[..|out0|] == out0
    ensures InPass(cmp, nodes, infos, cur, size, m + 1, out, q, list, tail)
  {
    PassingKept(ranks0, Ranks(cmp, infos), cur, size, m, out0);
    EndMerge(Ranks(cmp, infos), cur, size, m, out0, out, mid, hi);
  }

  /** Merging the next two runs of a pass. */
  method MergePair(cmp: Order, res: Results?, p: ListHead, insize: int, list0: ListHead?, tail0: ListHead?,
                   ghost nodes: seq<ListHead>, ghost infos: seq<ListData>, ghost cur: seq<nat>,
                   ghost m0: nat, ghost out0: seq<nat>)
    returns (q: ListHead?, list: ListHead?, tail: ListHead?, ghost m: nat, ghost out: seq<nat>, ghost calls: nat)
    requires cmp.ByData? ==> res != null
    requires insize > 0 && |out0| < |nodes|
    requires InPass(cmp, nodes, infos, cur, insize, m0, out0, p, list0, tail0)
    modifies nodes`next, infos`data16, res
    ensures InPass(cmp, nodes, infos, cur, insize, m, out, q, list, tail)
    ensures Evolves(cmp, old(Cells(infos)), Cells(infos))
    ensures m == m0 + 1 && |out0| < |out|
    ensures calls < |out| - |out0|
  {
    var psize;
    ghost var mid: nat, hi: nat;
    q, psize, mid, hi := NextPair(cmp, p, insize, list0, tail0, nodes, infos, cur, m0, out0);
    m := m0 + 1;
    q, list, tail, out, calls :=
      MergeRuns(cmp, res, p, q, psize, insize, list0, tail0, nodes, infos, cur, m0, out0, mid, hi);
  }

  /** Finding the two runs of a pair. */
  method NextPair(cmp: Order, p: ListHead, insize: int, ghost list0: ListHead?, ghost tail0: ListHead?,
                  ghost nodes: seq<ListHead>, ghost infos: seq<ListData>, ghost cur: seq<nat>, ghost m0: nat, ghost out0: seq<nat>)
    returns (q: ListHead?, psize: int, ghost mid: nat, ghost hi: nat)
    requires insize > 0 && |out0| < |nodes|
    requires InPass(cmp, nodes, infos, cur, insize, m0, out0, p, list0, tail0)
    ensures |out0| < mid == |out0| + psize && Bounds(|out0|, insize, |nodes|, mid, hi)
    ensures InMerge(cmp, nodes, infos, cur, |out0|, mid, hi, |out0|, mid, out0, p, q, list0, tail0)
  {
    q, psize, mid := StepAlong(p, insize, nodes, cur, |out0|);
    hi := Min(mid + insize, |nodes|);
    BeginPair(cmp, nodes, infos, cur, insize, m0, out0, p, q, list0, tail0, mid, hi);
  }

  /** The ends of the two runs of `size` nodes that start at k, in a list of n nodes. */
  predicate Bounds(k: nat, size: nat, n: nat, mid: nat, hi: nat) { mid == Min(k + size, n) && hi == Min(mid + size, n) }

  /** Merging them. */
  method MergeRuns(cmp: Order, res: Results?, p: ListHead, q0: ListHead?, psize: int, insize: int, list0: ListHead?, tail0: ListHead?,
                   ghost nodes: seq<ListHead>, ghost infos: seq<ListData>, ghost cur: seq<nat>,
                   ghost m0: nat, ghost out0: seq<nat>, ghost mid: nat, ghost hi: nat)
    returns (q: ListHead?, list: ListHead?, tail: ListHead?, ghost out: seq<nat>, ghost calls: nat)
    requires cmp.ByData? ==> res != null
    requires insize > 0 && |out0| < |nodes| && Passing(Ranks(cmp, infos), cur, insize, m0, out0)
    requires |out0| < mid == |out0| + psize && Bounds(|out0|, insize, |nodes|, mid, hi)
    requires InMerge(cmp, nodes, infos, cur, |out0|, mid, hi, |out0|, mid, out0, p, q0, list0, tail0)
    modifies nodes`next, infos`data16, res
    ensures InPass(cmp, nodes, infos, cur, insize, m0 + 1, out, q, list, tail)
    ensures Evolves(cmp, old(Cells(infos)), Cells(infos))
    ensures |out0| < |out| && calls < |out| - |out0|
  {
    ghost var ranks := Ranks(cmp, infos);
    q, list, tail, out, calls :=
      Merge(cmp, res, p, q0, psize, insize, list0, tail0, nodes, infos, cur, |out0|, mid, hi, out0);
    EndPair(cmp, nodes, infos, cur, insize, m0, out0, out, q, list, tail, mid, hi, ranks);
  }

  /** One pass of the sort: merging all neighbouring runs of `insize` nodes. */
  method MergePass(cmp: Order, res: Results?, head: ListHead, insize: int,
                   ghost nodes: seq<ListHead>, ghost infos: seq<ListData>, ghost cur: seq<nat>)
    returns (list: ListHead?, tail: ListHead?, nmerges: int, ghost m: nat, ghost out: seq<nat>, ghost calls: nat)
    requires cmp.ByData? ==> res != null
    requires insize > 0 && InPass(cmp, nodes, infos, cur, insize, 0, [], head, null, null)
    modifies nodes`next, infos`data16, res
    ensures InPass(cmp, nodes, infos, cur, insize, m, out, null, list, tail)
    ensures Evolves(cmp, old(Cells(infos)), Cells(infos))
    ensures nmerges == m && |out| == |nodes|
    ensures m >= 2 ==> |nodes| > 2 * insize
    ensures calls < |nodes|
  {
    var p: ListHead? := head;
    list, tail, nmerges, m, out, calls := null, null, 0, 0, [], 0;
    while p != null
      invariant nmerges == m && InPass(cmp, nodes, infos, cur, insize, m, out, p, list, tail)
      invariant Evolves(cmp, old(Cells(infos)), Cells(infos))
      invariant calls + m <= |out|
      invariant m >= 2 ==> |nodes| > 2 * insize
      decreases |nodes| - |out|
    {
      CountMerges(Ranks(cmp, infos), cur, insize, m, out);
      ghost var cells, called := Cells(infos), 0;
      p, list, tail, m, out, called := MergePair(cmp, res, p, insize, list, tail, nodes, infos, cur, m, out);
      EvolvesTransitive(cmp, old(Cells(infos)), cells, Cells(infos));
      nmerges, calls := nmerges + 1, calls + called;
    }
  }

  /** The number of passes that double runs of `size` until they cover n nodes. */
  function Passes(n: nat, size: nat): nat
    requires size > 0
    decreases n - size
  {
    if size >= n then 0 else 1 + Passes(n, 2 * size)
  }

  /** Passes(n, 1) is the logarithm of n to base two, rounded up. */
  lemma {:induction false} PassesIsLog2(n: nat, size: nat)
    requires size > 0
    ensures n <= size * Pow2(Passes(n, size))
    ensures size < n ==> size * Pow2(Passes(n, size)) < 2 * n
    decreases n - size
  {
    if size < n {
      PassesIsLog2(n, 2 * size);
      var p := Pow2(Passes(n, 2 * size));
      assert 2 * size * p == size * (2 * p);
    }
  }

  /** The list starting at `head` is `nodes`, in the order of the sequence, NULL-terminated. */
  ghost predicate ListOf(nodes: seq<ListHead>, head: ListHead?)
    reads nodes
  {
    && nodes != [] && head == nodes[0]
    && forall i {:trigger nodes[i].next} :: 0 <= i < |nodes| ==>
         nodes[i].next == if i + 1 < |nodes| then nodes[i + 1] else null
  }

  ghost function Arrange<T>(nodes: seq<T>, order: seq<nat>): (r: seq<T>)
    requires InRange(order, |nodes|)
    ensures |r| == |order| && forall i :: 0 <= i < |order| ==> r[i] == nodes[order[i]]
  {
    seq(|order|, i requires 0 <= i < |order| => nodes[order[i]])
  }

  lemma IdentityRuns(ranks: Ranking, cur: seq<nat>)
    requires forall i :: 0 <= i < |cur| ==> cur[i] == i
    ensures Permutation(cur, |cur|) && Runs(ranks, cur, 1)
  {
    forall m: nat ensures RunAt(ranks, cur, 1, m) {
    }
  }

  /** A run that covers the list is a sorted list. */
  lemma WholeRun(ranks: Ranking, cur: seq<nat>, size: nat)
    requires Runs(ranks, cur, size) && |cur| <= size
    ensures Sorted(ranks, cur)
  {
    assert RunAt(ranks, cur, size, 0);
  }

  lemma IsListOf(nodes: seq<ListHead>, order: seq<nat>, list: ListHead?)
    requires InRange(order, |nodes|) && |order| == |nodes| > 0
    requires list == nodes[order[0]] && Untouched(nodes, Nexts(nodes), order, 0, |nodes|)
    ensures ListOf(Arrange(nodes, order), list)
  {
    var a, nx := Arrange(nodes, order), Nexts(nodes);
    forall i | 0 <= i < |a| ensures a[i].next == if i + 1 < |a| then a[i + 1] else null {
      assert nx[order[i]] == NodeAt(nodes, order, i + 1);
    }
    assert ListOf(a, list);
  }

  lemma ListIsUntouched(nodes: seq<ListHead>, order: seq<nat>, list: ListHead?)
    requires |order| == |nodes| && InRange(order, |nodes|) && (forall i :: 0 <= i < |order| ==> order[i] == i)
    requires ListOf(nodes, list)
    ensures list == nodes[order[0]] && Untouched(nodes, Nexts(nodes), order, 0, |nodes|)
  {
    var nx := Nexts(nodes);
    forall i | 0 <= i < |order| ensures nx[order[i]] == NodeAt(nodes, order, i + 1) {
      assert nodes[i].next == nx[i];
    }
  }

  /** Ending the list behind its last node. */
  method Terminate(tail: ListHead, ghost cmp: Order, ghost nodes: seq<ListHead>, ghost infos: seq<ListData>,
                   ghost out: seq<nat>, ghost list: ListHead?)
    requires Carries(nodes, infos) && Permutation(out, |nodes|) && out != []
    requires Chained(nodes, Nexts(nodes), out, list, tail)
    modifies nodes`next
    ensures Carries(nodes, infos) && Ranks(cmp, infos) == old(Ranks(cmp, infos)) && Cells(infos) == old(Cells(infos))
    ensures Untouched(nodes, Nexts(nodes), out, 0, |nodes|)
  {
    ghost var last, nx := out[|out|-1], Nexts(nodes);
    forall i: nat | i < |nodes| && i != last ensures nodes[i] != tail {
      assert Differ(nodes, i, last);
    }
    tail.next := null;
    assert Nexts(nodes) == nx[last := null];
  }

  /** The list at `list` holds the nodes in the order `cur`, in sorted runs of `size`. */
  ghost predicate InRuns(cmp: Order, nodes: seq<ListHead>, infos: seq<ListData>, cur: seq<nat>, size: nat, list: ListHead?)
    reads nodes, infos
  {
    && Carries(nodes, infos) && nodes != []
    && Permutation(cur, |nodes|) && Runs(Ranks(cmp, infos), cur, size)
    && list == nodes[cur[0]] && Untouched(nodes, Nexts(nodes), cur, 0, |nodes|)
  }

  /** One round of the outer loop: a pass over runs of `insize` nodes, then termination. */
  method SortRound(list0: ListHead, cmp: Order, res: Results?, insize: int,
                   ghost nodes: seq<ListHead>, ghost infos: seq<ListData>, ghost cur: seq<nat>)
    returns (list: ListHead, last: bool, ghost order: seq<nat>, ghost calls: nat)
    requires cmp.ByData? ==> res != null
    requires insize > 0 && InRuns(cmp, nodes, infos, cur, insize, list0)
    modifies nodes`next, infos`data16, res
    ensures InRuns(cmp, nodes, infos, order, 2 * insize, list)
    ensures Evolves(cmp, old(Cells(infos)), Cells(infos))
    ensures last <==> |nodes| <= 2 * insize
    ensures calls < |nodes|
  {
    ghost var m;
    BeginPass(Ranks(cmp, infos), cur, insize);
    var first, tail, nmerges;
    first, tail, nmerges, m, order, calls := MergePass(cmp, res, list0, insize, nodes, infos, cur);
    CountMerges(Ranks(cmp, infos), cur, insize, m, order);
    EndPass(Ranks(cmp, infos), cur, insize, m, order);
    Terminate(tail, cmp, nodes, infos, order, first);
    list, last := first, nmerges <= 1;
  }

  /** n - 1 comparator calls for every pass. */
  function MaxCalls(n: nat, size: nat): nat
    requires 0 < size && 0 < n
    decreases n - size
  {
    if size >= n then 0 else n - 1 + MaxCalls(n, 2 * size)
  }

  lemma {:induction false} MaxCallsIsLinearithmic(n: nat, size: nat)
    requires 0 < size && 0 < n
    ensures MaxCalls(n, size) == (n - 1) * Passes(n, size)
    decreases n - size
  {
    if size < n {
      MaxCallsIsLinearithmic(n, 2 * size);
      assert (n - 1) * (1 + Passes(n, 2 * size)) == n - 1 + (n - 1) * Passes(n, 2 * size);
    }
  }

  /** core_list_mergesort.  `order` says where the nodes went: the result is the list
      nodes[order[0]], nodes[order[1]], ... */
  method MergeSort(list0: ListHead, cmp: Order, res: Results?, ghost nodes: seq<ListHead>, ghost infos: seq<ListData>)
    returns (list: ListHead, ghost order: seq<nat>, ghost calls: nat)
    requires cmp.ByData? ==> res != null
    requires Carries(nodes, infos) && ListOf(nodes, list0)
    modifies nodes`next, infos`data16, res
    ensures Carries(nodes, infos) && Evolves(cmp, old(Cells(infos)), Cells(infos))
    ensures Permutation(order, |nodes|) && Sorted(Ranks(cmp, infos), order)
    ensures ListOf(Arrange(nodes, order), list)
    ensures calls <= MaxCalls(|nodes|, 1)
  {
    list, calls := list0, 0;
    var insize := 1;
    order := seq(|nodes|, i => i);
    IdentityRuns(Ranks(cmp, infos), order);
    ListIsUntouched(nodes, order, list);
    while true
      invariant insize > 0 && InRuns(cmp, nodes, infos, order, insize, list)
      invariant Evolves(cmp, old(Cells(infos)), Cells(infos))
      invariant insize == 1 || insize < |nodes|
      invariant calls + MaxCalls(|nodes|, insize) <= MaxCalls(|nodes|, 1)
      decreases |nodes| - insize
    {
      ghost var cells, called := Cells(infos), 0;
      var last;
      list, last, order, called := SortRound(list, cmp, res, insize, nodes, infos, order);
      EvolvesTransitive(cmp, old(Cells(infos)), cells, Cells(infos));
      calls := calls + called;
      if last {
        break;
      }
      insize := 2 * insize;
    }
    WholeRun(Ranks(cmp, infos), order, 2 * insize);
    IsListOf(nodes, order, list);
  }

  // ----- any comparator

  /** What sorted means for a comparator that changes nothing: never in descending order, and words that
      compare equal stay in the order they had. */
  lemma SortedMeans(f: Comparator, cells: seq<Cell>, order: seq<nat>)
    requires InRange(order, |cells|) && Sorted(RanksOf(Other(f), cells), order)
    ensures forall i, j :: 0 <= i < j < |order| ==> f(cells[order[i]], cells[order[j]]) <= 0
    ensures forall i, j :: 0 <= i < j < |order| && f(cells[order[j]], cells[order[i]]) <= 0 ==> order[i] < order[j]
  {
    var ranks := RanksOf(Other(f), cells);
    forall i, j | 0 <= i < j < |order|
      ensures f(cells[order[i]], cells[order[j]]) <= 0
      ensures f(cells[order[j]], cells[order[i]]) <= 0 ==> order[i] < order[j]
    {
      assert Before(ranks, order[i], order[j]);
    }
  }

  /** core_list_mergesort with any comparator that is a total preorder and leaves the words alone. */
  method SortWith(list0: ListHead, f: Comparator, ghost nodes: seq<ListHead>, ghost infos: seq<ListData>)
    returns (list: ListHead, ghost order: seq<nat>, ghost calls: nat)
    requires Carries(nodes, infos) && ListOf(nodes, list0)
    modifies nodes`next, infos`data16
    ensures Carries(nodes, infos) && Cells(infos) == old(Cells(infos))
    ensures Permutation(order, |nodes|) && ListOf(Arrange(nodes, order), list)
    ensures var cells := Cells(infos); forall i, j :: 0 <= i < j < |order| ==> f(cells[order[i]], cells[order[j]]) <= 0
    ensures var cells := Cells(infos);
      forall i, j :: 0 <= i < j < |order| && f(cells[order[j]], cells[order[i]]) <= 0 ==> order[i] < order[j]
    ensures calls <= MaxCalls(|nodes|, 1)
  {
    ghost var cells := Cells(infos);
    list, order, calls := MergeSort(list0, Other(f), null, nodes, infos);
    NothingEvolves(f, cells, Cells(infos));
    assert Ranks(Other(f), infos).at == RanksOf(Other(f), cells).at;
    SortedMeans(f, cells, order);
  }

  lemma NothingEvolves(f: Comparator, cells: seq<Cell>, cells': seq<Cell>)
    requires Evolves(Other(f), cells, cells')
    ensures cells' == cells
  {
    forall i | 0 <= i < |cells| ensures cells'[i] == cells[i] {
      assert CellEvolves(Other(f), cells[i], cells'[i]);
    }
  }
}
