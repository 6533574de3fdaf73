/**
 Binary heap over a growing sequence: the container/heap algorithms that the nonce
 index, the price index and the spam queue of the transaction pool are built on.

 Elements are compared through an integer `rank`; `Less(i, j)` of the source is
 `rank(h[i]) < rank(h[j])`.
 */
module Heap {

  function Parent(j: nat): (p: nat)
  {
    if j == 0 then 0 else (j - 1) / 2
  }

  /** The element at `j` is not smaller than its parent. */
  ghost predicate Ordered<T>(h: seq<T>, rank: T -> int, j: nat)
    requires j < |h|
  {
    rank(h[Parent(j)]) <= rank(h[j])
  }

  /** Every edge of the first `n` positions whose upper end is at or after `lo` is in order. */
  ghost predicate HeapFrom<T>(h: seq<T>, rank: T -> int, lo: nat, n: nat)
    requires n <= |h|
  {
    forall j :: 0 < j < n && lo <= Parent(j) ==> Ordered(h, rank, j)
  }

  ghost predicate IsHeap<T>(h: seq<T>, rank: T -> int)
  {
    HeapFrom(h, rank, 0, |h|)
  }

  /** Every edge except those touching `i` is in order, and the edges skipping over `i` are too. */
  ghost predicate HeapAround<T>(h: seq<T>, rank: T -> int, lo: nat, n: nat, i: nat)
    requires n <= |h|
  {
    && (forall j :: 0 < j < n && lo <= Parent(j) && j != i && Parent(j) != i ==> Ordered(h, rank, j))
    && (forall j :: 0 < i && 0 < j < n && lo <= Parent(i) && Parent(j) == i ==>
          rank(h[Parent(i)]) <= rank(h[j]))
  }

  lemma {:induction false} RootIsLeast<T>(h: seq<T>, rank: T -> int, j: nat)
    requires IsHeap(h, rank)
    requires j < |h|
    ensures rank(h[0]) <= rank(h[j])
    decreases j
  {
    if j > 0 {
      assert Ordered(h, rank, j);
      RootIsLeast(h, rank, Parent(j));
    }
  }

  function Swap<T>(h: seq<T>, i: nat, j: nat): (r: seq<T>)
    requires i < |h| && j < |h|
    ensures |r| == |h|
    ensures multiset(r) == multiset(h)
  {
    assert multiset(h[i := h[j]]) == multiset(h) - multiset{h[i]} + multiset{h[j]};
    h[i := h[j]][j := h[i]]
  }

  /** Swapping `j` with its larger parent moves the only possible disorder from `j` to the parent. */
  lemma UpStep<T>(h: seq<T>, rank: T -> int, j: nat)
    requires 0 < j < |h|
    requires HeapAround(h, rank, 0, |h|, j)
    requires forall k :: 0 < k < |h| && Parent(k) == j ==> Ordered(h, rank, k)
    requires rank(h[j]) < rank(h[Parent(j)])
    ensures HeapAround(Swap(h, Parent(j), j), rank, 0, |h|, Parent(j))
    ensures forall k :: 0 < k < |h| && Parent(k) == Parent(j) ==> Ordered(Swap(h, Parent(j), j), rank, k)
  {
    var i := Parent(j);
    var g := Swap(h, i, j);
    assert forall k :: 0 <= k < |h| && k != i && k != j ==> g[k] == h[k];
    forall k | 0 < k < |h| && k != i && Parent(k) != i
      ensures Ordered(g, rank, k)
    {
      assert Parent(k) != j ==> Ordered(h, rank, k);
    }
    forall k | 0 < k < |h| && Parent(k) == i
      ensures Ordered(g, rank, k) && (0 < i ==> rank(g[Parent(i)]) <= rank(g[k]))
    {
      assert k != j ==> Ordered(h, rank, k);
      assert 0 < i ==> Ordered(h, rank, i);
    }
  }

  /** Moves the element at `start` towards the root until its parent is not larger. */
  method Up<T>(h: seq<T>, rank: T -> int, start: nat) returns (r: seq<T>)
    requires start < |h|
    requires HeapAround(h, rank, 0, |h|, start)
    requires forall j :: 0 < j < |h| && Parent(j) == start ==> Ordered(h, rank, j)
    ensures IsHeap(r, rank)
    ensures multiset(r) == multiset(h)
  {
    r := h;
    var j: nat := start;
    while true
      invariant j < |r| == |h|
      invariant multiset(r) == multiset(h)
      invariant HeapAround(r, rank, 0, |r|, j)
      invariant forall k :: 0 < k < |r| && Parent(k) == j ==> Ordered(r, rank, k)
      decreases j
    {
      var i := Parent(j);
      if i == j || !(rank(r[j]) < rank(r[i])) {
        break;
      }
      UpStep(r, rank, j);
      r := Swap(r, i, j);
      j := i;
    }
  }

  /** Swapping `i` with its smaller child `j` moves the only possible disorder from `i` to `j`. */
  lemma DownStep<T>(h: seq<T>, rank: T -> int, lo: nat, n: nat, i: nat, j: nat)
    requires lo <= i < n <= |h| && 0 < j < n && Parent(j) == i
    requires HeapAround(h, rank, lo, n, i)
    requires forall k :: 0 < k < n && Parent(k) == i ==> rank(h[j]) <= rank(h[k])
    requires rank(h[j]) < rank(h[i])
    ensures HeapAround(Swap(h, i, j), rank, lo, n, j)
    ensures Ordered(Swap(h, i, j), rank, j)
    ensures Swap(h, i, j)[n..] == h[n..]
  {
    var g := Swap(h, i, j);
    assert forall k :: 0 <= k < |h| && k != i && k != j ==> g[k] == h[k];
    forall k | 0 < k < n && lo <= Parent(k) && k != j && Parent(k) != j
      ensures Ordered(g, rank, k)
    {
      if k != i && Parent(k) != i {
        assert Ordered(h, rank, k);
      }
    }
    forall k | 0 < k < n && Parent(k) == j
      ensures rank(g[i]) <= rank(g[k])
    {
      assert Ordered(h, rank, k);
    }
  }

  function SmallerChild<T>(h: seq<T>, rank: T -> int, i: nat, n: nat): (j: nat)
    requires 2 * i + 1 < n <= |h|
    ensures 0 < j < n && Parent(j) == i
    ensures forall k :: 0 < k < n && Parent(k) == i ==> rank(h[j]) <= rank(h[k])
  {
    var left := 2 * i + 1;
    if left + 1 < n && rank(h[left + 1]) < rank(h[left]) then left + 1 else left
  }

  /** Moves the element at `start` away from the root, inside the first `n` positions. */
  method Down<T>(h: seq<T>, rank: T -> int, start: nat, n: nat, ghost lo: nat) returns (r: seq<T>, moved: bool)
    requires lo <= start < n <= |h|
    requires HeapAround(h, rank, lo, n, start)
    ensures |r| == |h| && r[n..] == h[n..]
    ensures multiset(r) == multiset(h)
    ensures moved ==> HeapFrom(r, rank, lo, n)
    ensures !moved ==> r == h && forall j :: 0 < j < n && Parent(j) == start ==> Ordered(r, rank, j)
  {
    r := h;
    var i: nat := start;
    while true
      invariant start <= i < n <= |r| == |h|
      invariant r[n..] == h[n..]
      invariant multiset(r) == multiset(h)
      invariant i == start ==> r == h
      invariant HeapAround(r, rank, lo, n, i)
      invariant i > start ==> 0 < i && lo <= Parent(i) && Ordered(r, rank, i)
      decreases n - i
    {
      if 2 * i + 1 >= n {
        break;
      }
      var j := SmallerChild(r, rank, i, n);
      if !(rank(r[j]) < rank(r[i])) {
        break;
      }
      DownStep(r, rank, lo, n, i, j);
      r := Swap(r, i, j);
      i := j;
    }
    moved := i > start;
  }

  /** Establishes the heap order on an arbitrary sequence. */
  method Init<T>(h: seq<T>, rank: T -> int) returns (r: seq<T>)
    ensures IsHeap(r, rank)
    ensures multiset(r) == multiset(h)
  {
    r := h;
    var i := |h| / 2;
    while i > 0
      invariant 0 <= i <= |r| == |h|
      invariant multiset(r) == multiset(h)
      invariant HeapFrom(r, rank, i, |r|)
    {
      i := i - 1;
      var moved;
      r, moved := Down(r, rank, i, |r|, i);
    }
  }

  method Push<T>(h: seq<T>, rank: T -> int, x: T) returns (r: seq<T>)
    requires IsHeap(h, rank)
    ensures IsHeap(r, rank)
    ensures multiset(r) == multiset(h) + multiset{x}
  {
    var g := h + [x];
    assert forall j :: 0 < j < |h| ==> Ordered(h, rank, j) ==> Ordered(g, rank, j);
    r := Up(g, rank, |h|);
  }

  /** Takes out the element at `i` by swapping it to the end and repairing around the hole. */
  method Remove<T>(h: seq<T>, rank: T -> int, i: nat) returns (r: seq<T>, x: T)
    requires IsHeap(h, rank)
    requires i < |h|
    ensures x == h[i]
    ensures IsHeap(r, rank)
    ensures multiset(r) + multiset{x} == multiset(h)
  {
    var n := |h| - 1;
    x := h[i];
    if n != i {
      SwapKeepsAround(h, rank, i);
      var g, moved := Down(Swap(h, i, n), rank, i, n, 0);
      assert g[n] == g[n..][0] == h[i];
      TakeKeepsOrder(g, rank, n);
      r := g[..n];
      if !moved {
        TakeKeepsAround(g, rank, n, i);
        r := Up(r, rank, i);
      }
    } else {
      TakeKeepsOrder(h, rank, n);
      r := h[..n];
    }
  }

  lemma TakeKeepsOrder<T>(h: seq<T>, rank: T -> int, n: nat)
    requires n + 1 == |h|
    ensures HeapFrom(h, rank, 0, n) ==> IsHeap(h[..n], rank)
    ensures multiset(h[..n]) + multiset{h[n]} == multiset(h)
  {
    assert h == h[..n] + [h[n]];
    if HeapFrom(h, rank, 0, n) {
      assert forall j :: 0 < j < n ==> Ordered(h, rank, j) ==> Ordered(h[..n], rank, j);
    }
  }

  lemma TakeKeepsAround<T>(h: seq<T>, rank: T -> int, n: nat, i: nat)
    requires n + 1 == |h|
    requires HeapAround(h, rank, 0, n, i)
    requires forall j :: 0 < j < n && Parent(j) == i ==> Ordered(h, rank, j)
    ensures HeapAround(h[..n], rank, 0, n, i)
    ensures forall j :: 0 < j < n && Parent(j) == i ==> Ordered(h[..n], rank, j)
  {
    assert forall j :: 0 < j < n ==> Ordered(h, rank, j) ==> Ordered(h[..n], rank, j);
  }

  lemma SwapKeepsAround<T>(h: seq<T>, rank: T -> int, i: nat)
    requires IsHeap(h, rank)
    requires i < |h| - 1
    ensures HeapAround(Swap(h, i, |h| - 1), rank, 0, |h| - 1, i)
  {
    var n := |h| - 1;
    var g := Swap(h, i, n);
    assert forall j :: 0 <= j < n && j != i ==> g[j] == h[j];
    forall j | 0 < j < n && j != i && Parent(j) != i
      ensures Ordered(g, rank, j)
    {
      assert Ordered(h, rank, j);
    }
    forall j | 0 < i && 0 < j < n && Parent(j) == i
      ensures rank(g[Parent(i)]) <= rank(g[j])
    {
      assert Ordered(h, rank, j) && Ordered(h, rank, i);
    }
  }

  /** Takes out the root, which ranks no higher than any other element. */
  method Pop<T>(h: seq<T>, rank: T -> int) returns (r: seq<T>, x: T)
    requires IsHeap(h, rank)
    requires |h| > 0
    ensures x == h[0]
    ensures IsHeap(r, rank)
    ensures multiset(r) + multiset{x} == multiset(h)
    ensures forall y <- h :: rank(x) <= rank(y)
  {
    var n := |h| - 1;
    x := h[0];
    forall y <- h
      ensures rank(x) <= rank(y)
    {
      var j :| 0 <= j < |h| && h[j] == y;
      RootIsLeast(h, rank, j);
    }
    var g := Swap(h, 0, n);
    if n > 0 {
      SwapKeepsAround(h, rank, 0);
      var moved;
      g, moved := Down(g, rank, 0, n, 0);
      assert g[n] == g[n..][0];
    }
    TakeKeepsOrder(g, rank, n);
    r := g[..n];
  }

  /** sort.Sort: the elements of `s` in rank order. */
  method Sort<T>(s: seq<T>, rank: T -> int) returns (r: seq<T>)
    ensures multiset(r) == multiset(s)
    ensures forall i, j :: 0 <= i < j < |r| ==> rank(r[i]) <= rank(r[j])
  {
    var h := Init(s, rank);
    r := [];
    while |h| > 0
      invariant IsHeap(h, rank)
      invariant multiset(r) + multiset(h) == multiset(s)
      invariant forall i, j :: 0 <= i < j < |r| ==> rank(r[i]) <= rank(r[j])
      invariant forall i, y :: 0 <= i < |r| && y in h ==> rank(r[i]) <= rank(y)
    {
      ghost var before := h;
      var x;
      h, x := Pop(h, rank);
      forall y | y in h
        ensures y in before
      {
        assert y in multiset(h);
        assert y in multiset(before);
      }
      assert x in before;
      r := r + [x];
    }
  }
}
