/** The slot grid of the inventory: a fixed row of twelve integers, where -1
    marks an empty slot and any other value is the index of an item in the
    catalog. The functions here are the specification the class methods in
    module InventorySystem are proved against. */
module Slots {

  /** Number of slots in the grid; the grid is never resized. */
  const SlotCount: nat := 12

  /** The value of a slot that holds no item. */
  const Empty: int := -1

  /** Every slot is empty or holds a valid index into a catalog of `catalogSize` items. */
  predicate SlotsWellFormed(s: seq<int>, catalogSize: nat)
  {
    forall k :: 0 <= k < |s| ==> s[k] == Empty || 0 <= s[k] < catalogSize
  }

  /** The lowest-indexed empty slot, or -1 when every slot is occupied
      (first fit: the scan runs front to back and stops at the first hole). */
  function FirstEmpty(s: seq<int>): (r: int)
    ensures -1 <= r < |s|
    ensures r >= 0 ==> s[r] == Empty
    ensures forall j :: 0 <= j < |s| && (r == -1 || j < r) ==> s[j] != Empty
  {
    if |s| == 0 then -1
    else if s[0] == Empty then 0
    else
      var r := FirstEmpty(s[1..]);
      if r == -1 then -1 else r + 1
  }

  /** Exchanges the contents of slots `i` and `j`. */
  function Swap(s: seq<int>, i: nat, j: nat): (r: seq<int>)
    requires i < |s| && j < |s|
    ensures |r| == |s| && r[i] == s[j] && r[j] == s[i]
    ensures forall k :: 0 <= k < |s| && k != i && k != j ==> r[k] == s[k]
  {
    s[i := s[j]][j := s[i]]
  }

  /** The items held by the grid, counted with multiplicity; empty slots do not count. */
  function Items(s: seq<int>): multiset<int>
  {
    multiset(s)[Empty := 0]
  }

  /** Swapping moves exactly two values and nothing else. */
  lemma SwapAt(s: seq<int>, i: nat, j: nat, k: nat)
    requires i < |s| && j < |s| && k < |s|
    ensures Swap(s, i, j)[k] == if k == j then s[i] else if k == i then s[j] else s[k]
  {
  }

  /** Swapping a slot with itself is a no-op (a drag dropped back where it began). */
  lemma SwapSelf(s: seq<int>, i: nat)
    requires i < |s|
    ensures Swap(s, i, i) == s
  {
  }

  /** Swapping the same two slots twice restores the original grid. */
  lemma SwapInvolutive(s: seq<int>, i: nat, j: nat)
    requires i < |s| && j < |s|
    ensures Swap(Swap(s, i, j), i, j) == s
  {
  }

  /** Dragging back from the target slot to the source undoes the first swap. */
  lemma SwapInvolutiveReversed(s: seq<int>, i: nat, j: nat)
    requires i < |s| && j < |s|
    ensures Swap(Swap(s, i, j), j, i) == s
  {
  }

  /** A swap rearranges the grid: the items it holds are the same. */
  lemma SwapKeepsItems(s: seq<int>, i: nat, j: nat)
    requires i < |s| && j < |s|
    ensures Items(Swap(s, i, j)) == Items(s)
  {
  }

  /** A swap keeps every slot empty or a valid catalog index. */
  lemma SwapKeepsWellFormed(s: seq<int>, i: nat, j: nat, catalogSize: nat)
    requires i < |s| && j < |s| && SlotsWellFormed(s, catalogSize)
    ensures SlotsWellFormed(Swap(s, i, j), catalogSize)
  {
  }

  /** Emptying an occupied slot removes exactly the item it held. */
  lemma ClearRemovesItem(s: seq<int>, i: nat)
    requires i < |s| && s[i] != Empty
    ensures Items(s[i := Empty]) + multiset{s[i]} == Items(s)
  {
  }

  /** Storing an item in an empty slot adds exactly that item. */
  lemma FillAddsItem(s: seq<int>, i: nat, v: int)
    requires i < |s| && s[i] == Empty && v != Empty
    ensures Items(s[i := v]) == Items(s) + multiset{v}
  {
  }
}
