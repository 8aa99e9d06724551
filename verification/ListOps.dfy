/** The list operations of core_list_join.c other than the sort: find, reverse, moving a
    node to the head, remove and undo remove. */
module ListOps {
  import opened ListCells
  import opened ListNodes
  import opened ListSort

  ghost function Reversed<T>(s: seq<T>): (r: seq<T>)
    ensures |r| == |s| && forall i {:trigger r[i]} :: 0 <= i < |s| ==> r[i] == s[|s| - 1 - i]
  {
    seq(|s|, i requires 0 <= i < |s| => s[|s| - 1 - i])
  }

  /** Entry j moved up to become the second entry. */
  ghost function MoveUp<T>(s: seq<T>, j: nat): (r: seq<T>)
    requires 1 <= j < |s|
    ensures |r| == |s|
    ensures forall i {:trigger r[i]} :: 0 <= i < |s| ==>
      r[i] == if i == 1 then s[j] else if 1 < i <= j then s[i - 1] else s[i]
  {
    [s[0], s[j]] + s[1..j] + s[j+1..]
  }

  /** What caching the entry behind position k at the head does to a sequence. */
  ghost function CachedAt<T>(s: seq<T>, k: nat): (r: seq<T>)
    requires k < |s|
  {
    if k + 1 < |s| then MoveUp(s, k + 1) else s
  }

  /** What core_list_find looks for: an index if it is not negative, else a data byte. */
  predicate Matches(c: Cell, idx: int, data16: int) {
    if idx >= 0 then c.idx == idx else LowByte(c.data16) == data16
  }

  function LowByte(d: bv16): int { (d & 0xff) as int }

  method Find(list0: ListHead?, idx: int, data16: int, ghost cur: seq<ListHead>)
    returns (list: ListHead?, ghost k: nat)
    requires ListOf(cur, list0)
    ensures k <= |cur| && list == (if k < |cur| then cur[k] else null)
    ensures forall i :: 0 <= i < k ==> !Matches(Snapshot(cur[i].info), idx, data16)
    ensures k < |cur| ==> Matches(Snapshot(cur[k].info), idx, data16)
    ensures list != null ==> list in cur && Matches(Snapshot(list.info), idx, data16)
  {
    list, k := list0, 0;
    if idx >= 0 {
      while list != null && list.info.idx != idx
        invariant k <= |cur| && list == (if k < |cur| then cur[k] else null)
        invariant forall i :: 0 <= i < k ==> !Matches(Snapshot(cur[i].info), idx, data16)
        decreases |cur| - k
      {
        list, k := list.next, k + 1;
      }
    } else {
      while list != null && LowByte(list.info.data16) != data16
        invariant k <= |cur| && list == (if k < |cur| then cur[k] else null)
        invariant forall i :: 0 <= i < k ==> !Matches(Snapshot(cur[i].info), idx, data16)
        decreases |cur| - k
      {
        list, k := list.next, k + 1;
      }
    }
  }

  method Reverse(list0: ListHead, ghost cur: seq<ListHead>) returns (next: ListHead)
    requires Distinct(cur) && ListOf(cur, list0)
    modifies cur`next
    ensures ListOf(Reversed(cur), next)
  {
    var list: ListHead? := list0;
    var done: ListHead? := null;
    ghost var k: nat := 0;
    while list != null
      invariant k <= |cur|
      invariant list == (if k < |cur| then cur[k] else null)
      invariant done == (if k > 0 then cur[k - 1] else null)
      invariant forall i {:trigger cur[i].next} :: 0 <= i < k ==> cur[i].next == if i > 0 then cur[i - 1] else null
      invariant forall i {:trigger cur[i].next} :: k <= i < |cur| ==> cur[i].next == if i + 1 < |cur| then cur[i + 1] else null
      decreases |cur| - k
    {
      forall i: nat | i < |cur| && i != k ensures cur[i] != list {
        assert Differ(cur, i, k);
      }
      var tmp := list.next;
      list.next := done;
      done, list, k := list, tmp, k + 1;
    }
    next := done;
    ghost var r := Reversed(cur);
    forall i | 0 <= i < |r| ensures r[i].next == if i + 1 < |r| then r[i + 1] else null {
      assert cur[|cur| - 1 - i].next == if i + 1 < |r| then r[i + 1] else null;
    }
    assert ListOf(r, next);
  }

  /** Caching the node behind `found` at the head of the list (the pointer moves of
      core_bench_list after a hit). */
  method CacheNext(found: ListHead, list: ListHead, ghost cur: seq<ListHead>, ghost k: nat)
    requires Distinct(cur) && ListOf(cur, list) && k < |cur| && found == cur[k]
    modifies cur`next
    ensures ListOf(CachedAt(cur, k), list)
  {
    if found.next != null {
      assert Differ(cur, k, k + 1) && (k > 0 ==> Differ(cur, 0, k) && Differ(cur, 0, k + 1));
      forall i: nat | i < |cur| && i != k && i != k + 1 && i != 0
        ensures cur[i] != cur[k] && cur[i] != cur[k + 1] && cur[i] != cur[0]
      {
        assert Differ(cur, i, k) && Differ(cur, i, k + 1) && Differ(cur, i, 0);
      }
      var finder := found.next;
      found.next := finder.next;
      finder.next := list.next;
      list.next := finder;
      ghost var r := MoveUp(cur, k + 1);
      forall i | 0 <= i < |r| ensures r[i].next == if i + 1 < |r| then r[i + 1] else null {
      }
      assert ListOf(r, list);
    }
  }

  /** core_list_remove: swap the data of `item` and its successor, and unlink the successor. */
  method Remove(item: ListHead) returns (ret: ListHead)
    requires item.next != null && item.next != item
    modifies item, item.next
    ensures ret == old(item.next)
    ensures item.info == old(item.next.info) && item.next == old(item.next.next)
    ensures ret.info == old(item.info) && ret.next == null
  {
    ret := item.next;
    var tmp := item.info;
    item.info := ret.info;
    ret.info := tmp;
    item.next := item.next.next;
    ret.next := null;
  }

  /** core_list_undo_remove. */
  method UndoRemove(removed: ListHead, modified: ListHead)
    requires removed != modified
    modifies removed, modified
    ensures removed.info == old(modified.info) && modified.info == old(removed.info)
    ensures removed.next == old(modified.next) && modified.next == removed
  {
    var tmp := removed.info;
    removed.info := modified.info;
    modified.info := tmp;
    removed.next := modified.next;
    modified.next := removed;
  }
}
