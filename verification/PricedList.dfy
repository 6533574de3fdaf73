/**
 The lookup of all pooled transactions and its lazily cleaned price heap
 (l2geth/core/tx_pool.go, l2geth/core/tx_list.go).
 */
module PricedList {
  import opened Wrappers
  import opened Transactions
  import opened Sums
  import Heap

  function HashSlots(h: Hash): int {
    h.preimage.NumSlots()
  }

  /** A transaction takes as many slots of 32 KB as its size needs. */
  lemma SlotsNeeded(tx: Tx)
    ensures (tx.NumSlots() - 1) * 32768 < tx.size <= tx.NumSlots() * 32768
  {
  }

  type Lookup = map<Hash, Tx>

  ghost predicate Hashed(all: Lookup) {
    forall h | h in all :: all[h] == h.preimage
  }

  predicate Live(all: Lookup, tx: Tx) {
    HashOf(tx) in all
  }

  class TxLookup {
    var all: Lookup
    var slots: int

    ghost predicate Valid()
      reads this
    {
      Hashed(all) && slots == Sum(all.Keys, HashSlots)
    }

    constructor ()
      ensures Valid() && all == map[]
    {
      all := map[];
      slots := 0;
    }

    function Get(hash: Hash): (tx: Option<Tx>)
      reads this
    {
      if hash in all then Some(all[hash]) else None
    }

    /** Adding a hash twice would count its slots twice. */
    method Add(tx: Tx)
      requires Valid() && !Live(all, tx)
      modifies this
      ensures Valid()
      ensures all == old(all)[HashOf(tx) := tx]
    {
      SumPut(all.Keys, HashSlots, HashOf(tx));
      slots := slots + tx.NumSlots();
      all := all[HashOf(tx) := tx];
      assert all.Keys == old(all).Keys + {HashOf(tx)};
    }

    /** The source dereferences the looked-up entry, so a missing hash would crash. */
    method Remove(hash: Hash)
      requires Valid() && hash in all
      modifies this
      ensures Valid()
      ensures all == old(all) - {hash}
    {
      SumTake(all.Keys, HashSlots, hash);
      slots := slots - all[hash].NumSlots();
      all := all - {hash};
      assert all.Keys == old(all).Keys - {hash};
    }
  }

  // ---------- price order ----------

  /** Cheaper first; among equal prices the higher nonce first. */
  predicate Less(a: Tx, b: Tx) {
    a.price < b.price || (a.price == b.price && a.nonce > b.nonce)
  }

  /** Eviction does not prefer to keep `d`: it is cheaper than `t` or, at the same price, its nonce is not lower. */
  predicate NoBetter(d: Tx, t: Tx) {
    d.price < t.price || (d.price == t.price && d.nonce >= t.nonce)
  }

  function PriceRank(tx: Tx): int {
    tx.price * 0x1_0000_0000_0000_0000 + (0xffff_ffff_ffff_ffff - tx.nonce)
  }

  lemma RankIsLess(a: Tx, b: Tx)
    ensures Less(a, b) <==> PriceRank(a) < PriceRank(b)
  {
  }

  function SeqSlots(txs: seq<Tx>): nat {
    if txs == [] then 0 else SeqSlots(txs[..|txs| - 1]) + txs[|txs| - 1].NumSlots()
  }

  ghost predicate Distinct(txs: seq<Tx>) {
    forall i, j :: 0 <= i < j < |txs| ==> txs[i] != txs[j]
  }

  ghost function HashesOf(txs: seq<Tx>): set<Hash> {
    set t | t in txs :: HashOf(t)
  }

  /** The data slots that removing the given transactions gives back to the pool. */
  ghost function Freed(drop: seq<Tx>): int {
    Sum(HashesOf(drop), HashSlots)
  }

  /** No pooled transaction has two entries in the heap. */
  ghost predicate NoDoubles(items: seq<Tx>, all: Lookup) {
    forall t :: Live(all, t) ==> multiset(items)[t] <= 1
  }

  /** The slots counted for a list of transactions are the slots they free, exactly if none is listed twice. */
  lemma {:induction false} FreedExact(drop: seq<Tx>)
    ensures Freed(drop) <= SeqSlots(drop)
    ensures Distinct(drop) ==> Freed(drop) == SeqSlots(drop)
    ensures (forall t :: t in drop ==> t.NumSlots() > 0) && Freed(drop) == SeqSlots(drop) ==> Distinct(drop)
  {
    if drop == [] {
      assert HashesOf(drop) == {};
    } else {
      var front, last := drop[..|drop| - 1], drop[|drop| - 1];
      FreedExact(front);
      assert drop == front + [last];
      assert last in drop && forall t :: t in front ==> t in drop;
      if last in front {
        assert HashesOf(drop) == HashesOf(front);
        var i :| 0 <= i < |front| && front[i] == last;
        assert drop[i] == drop[|drop| - 1];
      } else {
        assert HashesOf(drop) == HashesOf(front) + {HashOf(last)};
        SumPut(HashesOf(front), HashSlots, HashOf(last));
        DistinctAppend(front, last);
      }
    }
  }

  lemma DistinctAppend(front: seq<Tx>, last: Tx)
    requires last !in front
    ensures Distinct(front + [last]) <==> Distinct(front)
  {
    var all := front + [last];
    if Distinct(all) {
      assert forall i :: 0 <= i < |front| ==> all[i] == front[i];
    }
  }

  lemma DistinctDrop(items: seq<Tx>, all: Lookup, drop: seq<Tx>)
    requires NoDoubles(items, all) && multiset(drop) <= multiset(items) && forall t :: t in drop ==> Live(all, t)
    ensures Distinct(drop)
  {
    forall i, j | 0 <= i < j < |drop|
      ensures drop[i] != drop[j]
    {
      assert Live(all, drop[i]);
      if drop[i] == drop[j] {
        CountTwice(drop, i, j);
        assert false;
      }
    }
  }

  /** `items` has an entry for every transaction of `all` that is not in `out`. */
  ghost predicate CoversAllBut(items: seq<Tx>, all: Lookup, out: seq<Tx>) {
    forall tx :: Live(all, tx) ==> tx in items || tx in out
  }

  method PushAll(items: seq<Tx>, save: seq<Tx>) returns (r: seq<Tx>)
    requires Heap.IsHeap(items, PriceRank)
    ensures Heap.IsHeap(r, PriceRank)
    ensures multiset(r) == multiset(items) + multiset(save)
  {
    r := items;
    for i := 0 to |save|
      invariant Heap.IsHeap(r, PriceRank)
      invariant multiset(r) == multiset(items) + multiset(save[..i])
    {
      r := Heap.Push(r, PriceRank, save[i]);
      assert save[..i + 1] == save[..i] + [save[i]];
    }
    assert save[..|save|] == save;
  }

  /** What a scan of the price heap has popped so far: `drop` live remotes, `save` live locals, the rest stale. */
  ghost predicate Scanned(before: seq<Tx>, all: Lookup, locals: set<Address>,
                          items: seq<Tx>, drop: seq<Tx>, save: seq<Tx>)
  {
    && Heap.IsHeap(items, PriceRank)
    && (forall tx :: tx in before && Live(all, tx) ==> tx in items || tx in drop || tx in save)
    && (forall tx :: tx in items || tx in drop || tx in save ==> tx in before)
    && (forall tx :: tx in drop ==> Live(all, tx) && tx.from !in locals)
    && (forall tx :: tx in save ==> Live(all, tx))
    && (forall d, t :: d in drop && t in items ==> PriceRank(d) <= PriceRank(t))
    && multiset(drop) + multiset(items) <= multiset(before)
    && (forall tx :: Live(all, tx) ==>
          multiset(before)[tx] == multiset(items)[tx] + multiset(drop)[tx] + multiset(save)[tx])
  }

  lemma ScanStep(before: seq<Tx>, all: Lookup, locals: set<Address>, items: seq<Tx>, drop: seq<Tx>, save: seq<Tx>,
                 items': seq<Tx>, tx: Tx)
    requires Scanned(before, all, locals, items, drop, save)
    requires Heap.IsHeap(items', PriceRank) && multiset(items') + multiset{tx} == multiset(items)
    requires forall y <- items :: PriceRank(tx) <= PriceRank(y)
    ensures forall t :: t in items <==> t in items' || t == tx
    ensures !Live(all, tx) ==> Scanned(before, all, locals, items', drop, save)
    ensures Live(all, tx) ==> Scanned(before, all, locals, items', drop, save + [tx])
    ensures Live(all, tx) && tx.from !in locals ==> Scanned(before, all, locals, items', drop + [tx], save)
  {
    forall t
      ensures t in items <==> t in items' || t == tx
    {
      assert t in items <==> t in multiset(items);
      assert t in items' <==> t in multiset(items');
    }
    assert multiset(items') <= multiset(items);
    assert multiset(drop + [tx]) == multiset(drop) + multiset{tx};
    assert multiset(save + [tx]) == multiset(save) + multiset{tx};
    assert forall t :: multiset(items)[t] == multiset(items')[t] + multiset{tx}[t];
  }

  lemma ScanStart(before: seq<Tx>, all: Lookup, locals: set<Address>)
    requires Heap.IsHeap(before, PriceRank)
    ensures Scanned(before, all, locals, before, [], [])
  {
  }

  lemma ScanIsHeap(before: seq<Tx>, all: Lookup, locals: set<Address>, items: seq<Tx>, drop: seq<Tx>, save: seq<Tx>)
    requires Scanned(before, all, locals, items, drop, save)
    ensures Heap.IsHeap(items, PriceRank)
  {
  }

  lemma SlotsAppend(txs: seq<Tx>)
    ensures SeqSlots(txs) == if txs == [] then 0 else SeqSlots(txs[..|txs| - 1]) + txs[|txs| - 1].NumSlots()
  {
  }

  /** The popping loop of Discard. */
  method DiscardScan(before: seq<Tx>, all: Lookup, locals: set<Address>, slots: int)
    returns (items: seq<Tx>, drop: seq<Tx>, save: seq<Tx>, stale: nat)
    requires Heap.IsHeap(before, PriceRank)
    ensures Scanned(before, all, locals, items, drop, save)
    ensures forall tx :: tx in save ==> tx.from in locals
    ensures items == [] || SeqSlots(drop) >= slots
    ensures drop != [] ==> SeqSlots(drop[..|drop| - 1]) < slots
  {
    hide Scanned, SeqSlots, Heap.IsHeap, PriceRank, Tx.NumSlots;
    items, drop, save, stale := before, [], [], 0;
    ScanStart(before, all, locals);
    ScanIsHeap(before, all, locals, items, drop, save);
    SlotsAppend([]);
    var left := slots;
    while |items| > 0 && left > 0
      invariant Scanned(before, all, locals, items, drop, save)
      invariant Heap.IsHeap(items, PriceRank)
      invariant forall tx :: tx in save ==> tx.from in locals
      invariant left == slots - SeqSlots(drop)
      invariant drop != [] ==> SeqSlots(drop[..|drop| - 1]) < slots
      decreases |items|
    {
      ghost var prior := items;
      var tx;
      items, tx := Heap.Pop(items, PriceRank);
      ScanStep(before, all, locals, prior, drop, save, items, tx);
      assert |multiset(prior)| == |prior| && |multiset(items)| == |items|;
      if !Live(all, tx) {
        stale := stale + 1;
      } else if tx.from in locals {
        save := save + [tx];
      } else {
        assert (drop + [tx])[..|drop|] == drop;
        SlotsAppend(drop + [tx]);
        drop := drop + [tx];
        left := left - tx.NumSlots();
      }
    }
  }

  /** The popping loop of Cap. */
  method CapScan(before: seq<Tx>, all: Lookup, locals: set<Address>, threshold: int)
    returns (items: seq<Tx>, drop: seq<Tx>, save: seq<Tx>, stale: nat)
    requires Heap.IsHeap(before, PriceRank)
    ensures Scanned(before, all, locals, items, drop, save)
    ensures forall tx :: tx in items ==> tx.price >= threshold
    ensures forall tx :: tx in save ==> tx.from in locals || tx.price >= threshold
    ensures forall tx :: tx in drop ==> tx.price < threshold
  {
    items, drop, save, stale := before, [], [], 0;
    while |items| > 0
      invariant Scanned(before, all, locals, items, drop, save)
      invariant forall tx :: tx in save ==> tx.from in locals
      invariant forall tx :: tx in drop ==> tx.price < threshold
      decreases |items|
    {
      ghost var prior := items;
      var tx;
      items, tx := Heap.Pop(items, PriceRank);
      ScanStep(before, all, locals, prior, drop, save, items, tx);
      assert |multiset(prior)| == |prior| && |multiset(items)| == |items|;
      if !Live(all, tx) {
        stale := stale + 1;
      } else if tx.price >= threshold {
        save := save + [tx];
        DearerAbove(items, tx);
        break;
      } else if tx.from in locals {
        save := save + [tx];
      } else {
        drop := drop + [tx];
      }
    }
  }

  lemma DearerAbove(items: seq<Tx>, tx: Tx)
    requires forall y <- items :: PriceRank(tx) <= PriceRank(y)
    ensures forall y <- items :: tx.price <= y.price
  {
  }

  lemma OneMore(txs: seq<Tx>, tx: Tx)
    requires tx !in txs && forall t :: multiset(txs)[t] <= 1
    ensures forall t :: multiset(txs + [tx])[t] <= 1
  {
    assert multiset(txs + [tx]) == multiset(txs) + multiset{tx};
    assert tx !in multiset(txs);
  }

  /** One heap entry for each pooled transaction and no other. */
  ghost predicate RebuiltFrom(items: seq<Tx>, all: Lookup) {
    (forall t :: t in items <==> Live(all, t)) && forall t :: multiset(items)[t] <= 1
  }

  lemma SameElements(a: seq<Tx>, b: seq<Tx>)
    requires multiset(a) == multiset(b)
    ensures forall t :: t in a <==> t in b
  {
    forall t
      ensures t in a <==> t in b
    {
      assert t in a <==> t in multiset(a);
      assert t in b <==> t in multiset(b);
    }
  }

  lemma CheaperThan(drop: seq<Tx>, items: seq<Tx>)
    requires forall d, t :: d in drop && t in items ==> PriceRank(d) <= PriceRank(t)
    ensures forall d, t :: d in drop && t in items ==> NoBetter(d, t)
  {
  }

  lemma NothingLive(items: seq<Tx>, all: Lookup)
    requires items == [] && CoversAllBut(items, all, [])
    ensures all == map[]
  {
    forall h
      ensures h !in all
    {
      assert Live(all, h.preimage) <==> h in all;
    }
  }

  lemma RootIsCheapest(items: seq<Tx>, all: Lookup)
    requires |items| > 0 && Heap.IsHeap(items, PriceRank)
    requires CoversAllBut(items, all, [])
    ensures forall t :: Live(all, t) ==> items[0].price <= t.price
  {
    forall t | Live(all, t)
      ensures items[0].price <= t.price
    {
      var j :| 0 <= j < |items| && items[j] == t;
      Heap.RootIsLeast(items, PriceRank, j);
    }
  }

  /** Four remote transactions of one slot each, cheapest first. */
  ghost predicate FourPrices(a: Tx, b: Tx, c: Tx, d: Tx) {
    a.price < b.price < c.price < d.price && forall t :: t in {a, b, c, d} ==> t.NumSlots() == 1
  }

  lemma {:induction false} UnitSlots(txs: seq<Tx>)
    requires forall t :: t in txs ==> t.NumSlots() == 1
    ensures SeqSlots(txs) == |txs|
  {
    if txs != [] {
      var front := txs[..|txs| - 1];
      assert forall t :: t in front ==> t in txs;
      UnitSlots(front);
      assert txs[|txs| - 1] in txs;
    }
  }

  /**
   Whatever Discard drops for two slots from a heap with two entries for the cheapest transaction is just
   that one.
   */
  lemma DoubledDrop(a: Tx, b: Tx, c: Tx, d: Tx, items: seq<Tx>, drop: seq<Tx>)
    requires FourPrices(a, b, c, d) && forall t :: t in drop ==> t in {a, b, c, d}
    requires multiset(items)[a] + multiset(drop)[a] == 2
    requires forall x, t :: x in drop && t in items ==> x.price <= t.price
    requires SeqSlots(drop) >= 2 && SeqSlots(drop[..|drop| - 1]) < 2
    ensures drop == [a, a] && SeqSlots(drop) == 2 && Freed(drop) == 1
  {
    hide SeqSlots, Freed, Tx.NumSlots;
    UnitSlots(drop);
    assert forall t :: t in drop[..|drop| - 1] ==> t in drop;
    UnitSlots(drop[..|drop| - 1]);
    assert drop == [drop[0], drop[1]];
    forall k | 0 <= k < 2
      ensures drop[k] == a
    {
      if drop[k] != a {
        OneIsLeft(a, items, drop, k);
        assert false;
      }
    }
    FreedOne(a);
  }

  lemma OneIsLeft(a: Tx, items: seq<Tx>, drop: seq<Tx>, k: nat)
    requires |drop| == 2 && k < 2 && drop[k] != a && multiset(items)[a] + multiset(drop)[a] == 2
    ensures a in items && drop[k] in drop
  {
    assert drop == [drop[0]] + [drop[1]];
    assert multiset(drop)[a] <= 1;
    assert a in multiset(items);
  }

  lemma FreedOne(a: Tx)
    requires a.NumSlots() == 1
    ensures Freed([a, a]) == 1
  {
    assert HashesOf([a, a]) == {HashOf(a)};
    SumTake({HashOf(a)}, HashSlots, HashOf(a));
    assert {HashOf(a)} - {HashOf(a)} == {};
  }

  lemma DoubledResult(a: Tx, b: Tx, c: Tx, d: Tx, before: seq<Tx>, all: Lookup, items: seq<Tx>, drop: seq<Tx>)
    requires FourPrices(a, b, c, d) && multiset(before) == multiset{a, b, c, d} + multiset{a}
    requires all.Keys == {HashOf(a), HashOf(b), HashOf(c), HashOf(d)}
    requires forall t :: t in before && Live(all, t) ==> t in items || t in drop
    requires forall t :: t in items || t in drop ==> t in before
    requires forall x, t :: x in drop && t in items && t.from !in {} ==> x.price <= t.price
    requires SeqSlots(drop) >= 2 || forall t :: t in items ==> t.from in {}
    requires drop != [] ==> SeqSlots(drop[..|drop| - 1]) < 2
    requires forall t :: Live(all, t) ==> multiset(before)[t] == multiset(items)[t] + multiset(drop)[t]
    ensures drop == [a, a] && SeqSlots(drop) == 2 && Freed(drop) == 1
  {
    hide SeqSlots, Freed;
    FiveEntries(a, b, c, d, before);
    assert Live(all, a) && Live(all, b) && Live(all, c) && Live(all, d);
    LeftOver(a, b, c, d, before, items, drop);
    DoubledDrop(a, b, c, d, items, drop);
  }

  lemma FiveEntries(a: Tx, b: Tx, c: Tx, d: Tx, items: seq<Tx>)
    requires FourPrices(a, b, c, d) && multiset(items) == multiset{a, b, c, d} + multiset{a}
    ensures multiset(items)[a] == 2 && forall t :: t in items <==> t in {a, b, c, d}
  {
    assert forall t :: t in items <==> t in multiset(items);
  }

  /** The two slots are always found. */
  lemma LeftOver(a: Tx, b: Tx, c: Tx, d: Tx, before: seq<Tx>, items: seq<Tx>, drop: seq<Tx>)
    requires FourPrices(a, b, c, d) && forall t :: t in before <==> t in {a, b, c, d}
    requires forall t :: t in before ==> t in items || t in drop
    requires SeqSlots(drop) >= 2 || forall t :: t in items ==> t.from in {}
    requires forall t :: t in drop ==> t in before
    ensures SeqSlots(drop) >= 2 && drop != []
  {
    UnitSlots(drop);
    assert a in before && b in before;
  }

  class TxPricedList {
    const lookup: TxLookup
    var items: seq<Tx>
    var stales: int

    ghost predicate Valid()
      reads this
    {
      Heap.IsHeap(items, PriceRank)
    }

    /** Every pooled transaction has an entry in the heap. */
    ghost predicate Covers()
      reads this, lookup
    {
      CoversAllBut(items, lookup.all, [])
    }

    constructor (all: TxLookup)
      ensures Valid() && lookup == all && items == [] && stales == 0
    {
      lookup := all;
      items := [];
      stales := 0;
    }

    method Put(tx: Tx)
      requires Valid()
      modifies this
      ensures Valid() && stales == old(stales)
      ensures multiset(items) == multiset(old(items)) + multiset{tx}
      ensures forall t :: t in items <==> t in old(items) || t == tx
    {
      items := Heap.Push(items, PriceRank, tx);
      SameElements(items, old(items) + [tx]);
    }

    /** Counts stale entries and rebuilds the heap from the lookup once a quarter may be stale. */
    method Removed(count: nat)
      requires Valid() && lookup.Valid()
      modifies this
      ensures Valid()
      ensures old(stales) + count <= |old(items)| / 4 ==> items == old(items) && stales == old(stales) + count
      ensures old(stales) + count > |old(items)| / 4 ==> RebuiltFrom(items, lookup.all)
      ensures old(stales) + count > |old(items)| / 4 ==> stales == 0
    {
      stales := stales + count;
      if stales <= |items| / 4 {
        return;
      }
      stales := 0;
      var reheap := [];
      var rest := lookup.all.Keys;
      while rest != {}
        invariant rest <= lookup.all.Keys && Hashed(lookup.all)
        invariant forall t :: Live(lookup.all, t) <==> t in reheap || HashOf(t) in rest
        invariant forall t :: t in reheap ==> HashOf(t) !in rest
        invariant forall t :: multiset(reheap)[t] <= 1
        invariant stales == 0
        decreases |rest|
      {
        var h :| h in rest;
        assert HashOf(lookup.all[h]) == h;
        OneMore(reheap, lookup.all[h]);
        reheap, rest := reheap + [lookup.all[h]], rest - {h};
      }
      items := Heap.Init(reheap, PriceRank);
      SameElements(items, reheap);
      assert forall t :: multiset(items)[t] == multiset(reheap)[t];
    }

    /** Drops the remote transactions below the threshold; locals and dearer ones stay. */
    method Cap(threshold: int, locals: set<Address>) returns (drop: seq<Tx>)
      requires Valid()
      modifies this
      ensures Valid()
      ensures forall tx :: tx in drop ==> Live(lookup.all, tx) && tx.from !in locals && tx.price < threshold
      ensures forall tx :: tx in old(items) && Live(lookup.all, tx) ==> tx in items || tx in drop
      ensures forall tx :: tx in items ==> tx in old(items) && (tx.from in locals || tx.price >= threshold)
    {
      var save, stale;
      items, drop, save, stale := CapScan(items, lookup.all, locals, threshold);
      stales := stales - stale;
      ghost var kept := items + save;
      items := PushAll(items, save);
      SameElements(items, kept);
    }

    /** Whether `tx` is no dearer than the cheapest pooled transaction; locals never are. */
    method Underpriced(tx: Tx, locals: set<Address>) returns (r: bool)
      requires Valid() && Covers()
      modifies this
      ensures Valid() && Covers() && multiset(items) <= multiset(old(items))
      ensures r <==> tx.from !in locals && lookup.all != map[] &&
                     forall t :: Live(lookup.all, t) ==> tx.price <= t.price
    {
      if tx.from in locals {
        return false;
      }
      while |items| > 0
        invariant Valid() && Covers()
        invariant lookup.all == old(lookup.all) && multiset(items) <= multiset(old(items))
        decreases |items|
      {
        if Live(lookup.all, items[0]) {
          break;
        }
        ghost var prior := items;
        var head;
        items, head := Heap.Pop(items, PriceRank);
        stales := stales - 1;
        SameElements(items + [head], prior);
        assert |multiset(prior)| == |prior| && |multiset(items)| == |items|;
      }
      if |items| == 0 {
        NothingLive(items, lookup.all);
        return false;
      }
      RootIsCheapest(items, lookup.all);
      r := items[0].price >= tx.price;
    }

    /** Pops the cheapest remote transactions until `slots` data slots have been collected. */
    method Discard(slots: int, locals: set<Address>) returns (drop: seq<Tx>)
      requires Valid()
      modifies this
      ensures Valid()
      ensures forall tx :: tx in drop ==> Live(lookup.all, tx) && tx.from !in locals
      ensures forall tx :: tx in old(items) && Live(lookup.all, tx) ==> tx in items || tx in drop
      ensures forall tx :: tx in items || tx in drop ==> tx in old(items)
      ensures forall d, t :: d in drop && t in items && t.from !in locals ==> NoBetter(d, t)
      ensures SeqSlots(drop) >= slots || forall t :: t in items ==> t.from in locals
      ensures drop != [] ==> SeqSlots(drop[..|drop| - 1]) < slots
      ensures multiset(drop) <= old(multiset(items))
      ensures forall t :: Live(lookup.all, t) ==> multiset(old(items))[t] == multiset(items)[t] + multiset(drop)[t]
      ensures Freed(drop) <= SeqSlots(drop) && (Distinct(drop) ==> Freed(drop) == SeqSlots(drop))
      ensures old(NoDoubles(items, lookup.all)) ==> Distinct(drop)
    {
      var save, stale;
      items, drop, save, stale := DiscardScan(items, lookup.all, locals, slots);
      stales := stales - stale;
      CheaperThan(drop, items);
      FreedExact(drop);
      if old(NoDoubles(items, lookup.all)) {
        DistinctDrop(old(items), lookup.all, drop);
      }
      ghost var kept := items + save;
      items := PushAll(items, save);
      SameElements(items, kept);
    }
  }

  method AddBoth(lookup: TxLookup, priced: TxPricedList, tx: Tx)
    requires lookup.Valid() && priced.Valid() && priced.lookup == lookup && !Live(lookup.all, tx)
    modifies lookup, priced
    ensures lookup.Valid() && priced.Valid() && priced.stales == old(priced.stales)
    ensures lookup.all == old(lookup.all)[HashOf(tx) := tx]
    ensures multiset(priced.items) == multiset(old(priced.items)) + multiset{tx}
  {
    lookup.Add(tx);
    priced.Put(tx);
  }

  method TwoAdded(a: Tx, b: Tx) returns (lookup: TxLookup, priced: TxPricedList)
    requires a != b
    ensures fresh(lookup) && fresh(priced) && lookup.Valid() && priced.Valid() && priced.lookup == lookup
    ensures lookup.all.Keys == {HashOf(a), HashOf(b)}
    ensures multiset(priced.items) == multiset{a, b} && priced.stales == 0
  {
    hide TxLookup.Valid, TxPricedList.Valid;
    lookup := new TxLookup();
    priced := new TxPricedList(lookup);
    AddBoth(lookup, priced, a);
    AddBoth(lookup, priced, b);
  }

  method FourAdded(a: Tx, b: Tx, c: Tx, d: Tx) returns (lookup: TxLookup, priced: TxPricedList)
    requires FourPrices(a, b, c, d)
    ensures fresh(lookup) && fresh(priced) && lookup.Valid() && priced.Valid() && priced.lookup == lookup
    ensures lookup.all.Keys == {HashOf(a), HashOf(b), HashOf(c), HashOf(d)}
    ensures multiset(priced.items) == multiset{a, b, c, d} && |priced.items| == 4 && priced.stales == 0
  {
    hide TxLookup.Valid, TxPricedList.Valid;
    assert c !in {a, b} && d !in {a, b, c};
    lookup, priced := TwoAdded(a, b);
    AddBoth(lookup, priced, c);
    AddBoth(lookup, priced, d);
    assert |multiset(priced.items)| == |priced.items|;
  }

  /**
   A transaction that is removed and comes back before the heap is rebuilt has two entries. Discard then
   takes both, and stops after freeing one slot of two although a remote transaction is left.
   */
  method DoubledEntry(a: Tx, b: Tx, c: Tx, d: Tx) returns (drop: seq<Tx>, lookup: TxLookup)
    requires FourPrices(a, b, c, d)
    ensures lookup.Valid() && lookup.all.Keys == {HashOf(a), HashOf(b), HashOf(c), HashOf(d)}
    ensures drop == [a, a] && SeqSlots(drop) == 2 && Freed(drop) == 1
  {
    hide TxLookup.Valid, TxPricedList.Valid, FourPrices, SeqSlots, Freed, NoDoubles, Distinct, RebuiltFrom;
    var priced;
    lookup, priced := FourAdded(a, b, c, d);
    lookup.Remove(HashOf(a));
    priced.Removed(1);
    AddBoth(lookup, priced, a);
    ghost var before := priced.items;
    drop := priced.Discard(2, {});
    DoubledResult(a, b, c, d, before, lookup.all, priced.items, drop);
  }
}
