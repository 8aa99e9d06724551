/** Facts about node orders that the list benchmark's restoration argument uses. */
module ListOrders {
  import opened ListCells
  import opened ListNodes
  import opened ListSort
  import opened ListOps

  ghost function UpTo(n: nat): (s: set<nat>)
    ensures forall x: nat :: x in s <==> x < n
  {
    if n == 0 then {} else UpTo(n - 1) + {n - 1}
  }

  lemma {:induction false} UpToSize(n: nat)
    ensures |UpTo(n)| == n
  {
    if n > 0 {
      UpToSize(n - 1);
    }
  }

  ghost function Members(order: seq<nat>): set<nat> { set x: nat | x in order }

  lemma {:induction false} MembersSize(order: seq<nat>)
    requires Injective(order)
    ensures |Members(order)| == |order|
  {
    if order != [] {
      var init, last := order[..|order| - 1], order[|order| - 1];
      MembersSize(init);
      assert last !in init;
      assert Members(order) == Members(init) + {last};
    }
  }

  /** n different numbers below n are all the numbers below n. */
  lemma Surjective(order: seq<nat>, n: nat, x: nat)
    requires Permutation(order, n) && x < n
    ensures x in order
  {
    MembersSize(order);
    UpToSize(n);
    assert Members(order) <= UpTo(n);
    if x !in order {
      assert Members(order) <= UpTo(n) - {x};
      SubsetSize(Members(order), UpTo(n) - {x});
    }
  }

  lemma {:induction false} SubsetSize(a: set<nat>, b: set<nat>)
    requires a <= b
    ensures |a| <= |b|
    decreases a
  {
    if a != {} {
      var x :| x in a;
      SubsetSize(a - {x}, b - {x});
    }
  }

  /** Sorting two or more nodes settles every one of them. */
  lemma SortedSettles(ranks: Ranking, order: seq<nat>, x: nat)
    requires Permutation(order, |ranks.at|) && Sorted(ranks, order) && |ranks.at| >= 2 && x < |ranks.at|
    ensures ranks.at[x].settled
  {
    Surjective(order, |ranks.at|, x);
    var i :| 0 <= i < |order| && order[i] == x;
    if i == 0 {
      assert Before(ranks, order[0], order[1]);
    } else {
      assert Before(ranks, order[0], order[i]);
    }
  }

  lemma {:induction false} IncreasingIsIdentity(order: seq<nat>, i: nat)
    requires InRange(order, |order|) && i < |order|
    requires forall a, b :: 0 <= a < b < |order| ==> order[a] < order[b]
    ensures order[i] == i
  {
    AtLeast(order, i);
    AtMost(order, i);
  }

  lemma {:induction false} AtLeast(order: seq<nat>, i: nat)
    requires i < |order|
    requires forall a, b :: 0 <= a < b < |order| ==> order[a] < order[b]
    ensures order[i] >= i
  {
    if i > 0 {
      AtLeast(order, i - 1);
      assert order[i - 1] < order[i];
    }
  }

  lemma {:induction false} AtMost(order: seq<nat>, i: nat)
    requires InRange(order, |order|) && i < |order|
    requires forall a, b :: 0 <= a < b < |order| ==> order[a] < order[b]
    ensures order[i] <= i
    decreases |order| - i
  {
    if i + 1 < |order| {
      AtMost(order, i + 1);
      assert order[i] < order[i + 1];
    }
  }

  ghost predicate IncreasingIdx(cells: seq<Cell>) {
    forall i, j :: 0 <= i < j < |cells| ==> cells[i].idx < cells[j].idx
  }

  ghost predicate AscendingIdx(cells: seq<Cell>) {
    forall i, j :: 0 <= i < j < |cells| ==> cells[i].idx <= cells[j].idx
  }

  // ----- rearranging is closed under the benchmark's steps

  /** A permutation, said with `Distinct`. */
  ghost predicate Shuffle(order: seq<nat>, n: nat) { |order| == n && InRange(order, n) && Distinct(order) }

  lemma ShuffleIsPermutation(order: seq<nat>, n: nat)
    ensures Shuffle(order, n) <==> Permutation(order, n)
  {
    if Shuffle(order, n) {
      forall i, j | 0 <= i < j < n ensures order[i] != order[j] {
        assert Differ(order, i, j);
      }
    }
    if Permutation(order, n) {
      forall i: nat, j: nat | i < n && j < n && i != j ensures Differ(order, i, j) {
        assert if i < j then order[i] != order[j] else order[j] != order[i];
      }
    }
  }

  lemma PositionOf(order: seq<nat>, n: nat, x: nat) returns (i: nat)
    requires Shuffle(order, n) && x < n
    ensures i < |order| && order[i] == x
  {
    ShuffleIsPermutation(order, n);
    Surjective(order, n, x);
    i :| i < |order| && order[i] == x;
  }

  lemma ArrangeDistinct<T>(nodes: seq<T>, order: seq<nat>)
    requires Distinct(nodes) && Shuffle(order, |nodes|)
    ensures Distinct(Arrange(nodes, order))
  {
    var a := Arrange(nodes, order);
    forall i: nat, j: nat | i < |a| && j < |a| && i != j ensures Differ(a, i, j) {
      assert Differ(order, i, j);
      assert Differ(nodes, order[i], order[j]);
    }
  }

  lemma ReversedPermutation(order: seq<nat>, n: nat)
    requires Shuffle(order, n)
    ensures Shuffle(Reversed(order), n)
  {
    forall i: nat, j: nat | i < n && j < n && i != j ensures Differ(Reversed(order), i, j) {
      assert Differ(order, n - 1 - i, n - 1 - j);
    }
  }

  lemma MoveUpPermutation(order: seq<nat>, n: nat, j: nat)
    requires Permutation(order, n) && 1 <= j < n
    ensures Permutation(MoveUp(order, j), n)
  {
  }

  lemma ArrangePermutation(order: seq<nat>, order2: seq<nat>, n: nat)
    requires Shuffle(order, n) && Permutation(order2, n)
    ensures Shuffle(Arrange(order, order2), n)
  {
    ShuffleIsPermutation(order2, n);
    ArrangeDistinct(order, order2);
  }

  lemma ArrangeTwice<T>(nodes: seq<T>, order: seq<nat>, order2: seq<nat>)
    requires InRange(order, |nodes|) && InRange(order2, |order|)
    ensures InRange(Arrange(order, order2), |nodes|)
    ensures Arrange(Arrange(nodes, order), order2) == Arrange(nodes, Arrange(order, order2))
  {
  }

  lemma ArrangeReversed<T>(nodes: seq<T>, order: seq<nat>)
    requires InRange(order, |nodes|)
    ensures InRange(Reversed(order), |nodes|) && Arrange(nodes, Reversed(order)) == Reversed(Arrange(nodes, order))
  {
  }

  lemma ArrangeMoveUp<T>(nodes: seq<T>, order: seq<nat>, j: nat)
    requires InRange(order, |nodes|) && 1 <= j < |order|
    ensures InRange(MoveUp(order, j), |nodes|)
    ensures Arrange(nodes, MoveUp(order, j)) == MoveUp(Arrange(nodes, order), j)
  {
  }

  lemma ArrangeCachedAt<T>(nodes: seq<T>, order: seq<nat>, k: nat)
    requires Shuffle(order, |nodes|) && k < |order|
    ensures Shuffle(CachedAt(order, k), |nodes|)
    ensures Arrange(nodes, CachedAt(order, k)) == CachedAt(Arrange(nodes, order), k)
  {
    if k + 1 < |order| {
      ArrangeMoveUp(nodes, order, k + 1);
      ShuffleIsPermutation(order, |nodes|);
      MoveUpPermutation(order, |nodes|, k + 1);
      ShuffleIsPermutation(MoveUp(order, k + 1), |nodes|);
    }
  }

  /** What holds of the words in list order holds of the words in original order. */
  lemma EvolvesBack(cmp: Order, cells: seq<Cell>, cells': seq<Cell>, order: seq<nat>)
    requires |cells| == |cells'| && Shuffle(order, |cells|)
    requires Evolves(cmp, Arrange(cells, order), Arrange(cells', order))
    ensures Evolves(cmp, cells, cells')
  {
    var a, a' := Arrange(cells, order), Arrange(cells', order);
    forall x: nat | x < |cells| ensures CellEvolves(cmp, cells[x], cells'[x]) {
      var i := PositionOf(order, |cells|, x);
      assert CellEvolves(cmp, a[i], a'[i]);
    }
  }
}
