/**
 The per-account transaction list (l2geth/core/tx_list.go): a sorted map with cached cost
 and gas caps and a strict mode that keeps the nonces gap-free.

 `List` is the plain value of a list; the class `TxList` is the pool's data structure and
 every method is proved to act on its value as the `List` function of the same name.
 */
module TxLists {
  import opened Wrappers
  import opened Transactions
  import opened SortedMap

  function Max(a: int, b: int): int {
    if a < b then b else a
  }

  /** Too expensive for the account or too large for a block. */
  function TooDear(costLimit: int, gasLimit: Uint64): Tx -> bool {
    (tx: Tx) => tx.Cost() > costLimit || tx.gas > gasLimit
  }

  predicate NoneUpTo(items: Items, doomed: Tx -> bool, n: Uint64) {
    forall m | m in items && m <= n :: !doomed(items[m])
  }

  /** The entries below the first doomed one. */
  function KeepBeforeFirst(items: Items, doomed: Tx -> bool): Items {
    items - (set n | n in items && !NoneUpTo(items, doomed, n))
  }

  /** No hole between any two nonces. */
  ghost predicate Contiguous(items: Items) {
    forall p: Uint64, j: Uint64, n: Uint64 | p in items && n in items && p <= j <= n :: j in items
  }

  /** A replacement has to be dearer, and by at least `bump` percent. */
  predicate Outbids(tx: Tx, prior: Tx, bump: nat) {
    prior.price < tx.price && prior.price * (100 + bump) / 100 <= tx.price
  }

  /** A replacement raises the price by at least one, and by at least `bump` percent rounded down. */
  lemma OutbidsByBump(tx: Tx, prior: Tx, bump: nat)
    ensures Outbids(tx, prior, bump) <==>
            tx.price - prior.price >= 1 && tx.price - prior.price >= prior.price * bump / 100
  {
    assert prior.price * (100 + bump) == 100 * prior.price + prior.price * bump;
    var x := prior.price * bump;
    assert (100 * prior.price + x) / 100 == prior.price + x / 100;
  }

  datatype List = List(strict: bool, items: Items, costcap: int, gascap: Uint64) {

    /** The cached caps bound the cost and the gas of every member. */
    ghost predicate Bounded() {
      forall n | n in items :: items[n].Cost() <= costcap && items[n].gas <= gascap
    }

    predicate Accepts(tx: Tx, bump: nat) {
      tx.nonce in items ==> Outbids(tx, items[tx.nonce], bump)
    }

    function Add(tx: Tx): List {
      List(strict, items[tx.nonce := tx], Max(costcap, tx.Cost()), Max(gascap, tx.gas))
    }

    function Forward(threshold: Uint64): List {
      this.(items := AtLeast(items, threshold))
    }

    function Filter(costLimit: int, gasLimit: Uint64): List {
      if costcap <= costLimit && gascap <= gasLimit then this
      else
        var doomed := TooDear(costLimit, gasLimit);
        List(strict, if strict then KeepBeforeFirst(items, doomed) else Keep(items, doomed), costLimit, gasLimit)
    }

    /** What Filter reports as too dear: nothing when the caps already fit. */
    function FilterDrops(costLimit: int, gasLimit: Uint64): Items {
      if costcap <= costLimit && gascap <= gasLimit then map[] else Reject(items, TooDear(costLimit, gasLimit))
    }

    /** What a strict Filter reports as cut off behind a dropped transaction. */
    function FilterInvalids(costLimit: int, gasLimit: Uint64): Items {
      items - FilterDrops(costLimit, gasLimit).Keys - Filter(costLimit, gasLimit).items.Keys
    }

    function Cap(threshold: nat): List {
      this.(items := Lowest(items, threshold))
    }

    function Remove(nonce: Uint64): List {
      this.(items := if nonce in items && strict then Below(items, nonce) else items - {nonce})
    }

    function Ready(start: Uint64): List {
      this.(items := items - ReadyRun(items, start).Keys)
    }
  }

  // ---------- properties of the plain lists ----------

  lemma AddBounded(l: List, tx: Tx)
    requires l.Bounded()
    ensures l.Add(tx).Bounded()
  {
  }

  /** Every other operation only takes transactions out, so the caps stay bounds. */
  lemma SmallerBounded(l: List, items: Items)
    requires l.Bounded()
    requires forall n | n in items :: n in l.items && items[n] == l.items[n]
    ensures l.(items := items).Bounded()
  {
  }

  lemma FilterBounded(l: List, costLimit: int, gasLimit: Uint64)
    requires l.Bounded()
    ensures l.Filter(costLimit, gasLimit).Bounded()
  {
    var items' := l.Filter(costLimit, gasLimit).items;
    forall n | n in items' && !(l.costcap <= costLimit && l.gascap <= gasLimit)
      ensures !TooDear(costLimit, gasLimit)(items'[n])
    {
    }
  }

  /** The short circuit on the caps takes out exactly what a full scan would. */
  lemma ShortCircuitExact(l: List, costLimit: int, gasLimit: Uint64)
    requires l.Bounded()
    ensures l.Filter(costLimit, gasLimit).items ==
            if l.strict then KeepBeforeFirst(l.items, TooDear(costLimit, gasLimit))
            else Keep(l.items, TooDear(costLimit, gasLimit))
  {
    if l.costcap <= costLimit && l.gascap <= gasLimit {
      assert forall n | n in l.items :: !TooDear(costLimit, gasLimit)(l.items[n]);
      assert l.items == Keep(l.items, TooDear(costLimit, gasLimit));
      assert l.items == KeepBeforeFirst(l.items, TooDear(costLimit, gasLimit));
    }
  }

  ghost predicate DownClosed(part: Items, items: Items) {
    && (forall n | n in part :: n in items && part[n] == items[n])
    && (forall m, n | m in items && n in part && m <= n :: m in part)
  }

  ghost predicate UpClosed(part: Items, items: Items) {
    && (forall n | n in part :: n in items && part[n] == items[n])
    && (forall m, n | m in items && n in part && n <= m :: m in part)
  }

  lemma ClosedContiguous(part: Items, items: Items)
    requires Contiguous(items) && (DownClosed(part, items) || UpClosed(part, items))
    ensures Contiguous(part)
  {
    forall p: Uint64, j: Uint64, n: Uint64 | p in part && n in part && p <= j <= n
      ensures j in part
    {
      assert j in items;
    }
  }

  lemma {:induction false} FewerBelow(items: Items, m: Uint64, n: Uint64)
    requires m <= n
    ensures |NoncesBelow(items, m)| <= |NoncesBelow(items, n)|
  {
    var low, high := NoncesBelow(items, m), NoncesBelow(items, n);
    assert low <= high;
    assert high == low + (high - low);
  }

  lemma LowestDownClosed(items: Items, k: nat)
    ensures DownClosed(Lowest(items, k), items)
  {
    forall m, n | m in items && n in Lowest(items, k) && m <= n
      ensures m in Lowest(items, k)
    {
      FewerBelow(items, m, n);
    }
  }

  /**
   On a strict gap-free list, Forward, Filter, Cap and Remove all leave a gap-free list.
   Forward cuts at the front; the others keep a front part.
   */
  lemma StrictStaysContiguous(l: List, threshold: Uint64, costLimit: int, gasLimit: Uint64, k: nat, nonce: Uint64)
    requires l.strict && Contiguous(l.items)
    ensures Contiguous(l.Forward(threshold).items)
    ensures Contiguous(l.Filter(costLimit, gasLimit).items)
    ensures Contiguous(l.Cap(k).items)
    ensures Contiguous(l.Remove(nonce).items)
  {
    ForwardUpClosed(l.items, threshold);
    ClosedContiguous(AtLeast(l.items, threshold), l.items);
    FilterDownClosed(l, costLimit, gasLimit);
    ClosedContiguous(l.Filter(costLimit, gasLimit).items, l.items);
    LowestDownClosed(l.items, k);
    ClosedContiguous(Lowest(l.items, k), l.items);
    RemoveDownClosed(l, nonce);
    ClosedContiguous(l.Remove(nonce).items, l.items);
  }

  lemma ForwardUpClosed(items: Items, threshold: Uint64)
    ensures UpClosed(AtLeast(items, threshold), items)
  {
  }

  lemma FilterDownClosed(l: List, costLimit: int, gasLimit: Uint64)
    requires l.strict
    ensures DownClosed(l.Filter(costLimit, gasLimit).items, l.items)
  {
  }

  lemma RemoveDownClosed(l: List, nonce: Uint64)
    requires l.strict
    ensures DownClosed(l.Remove(nonce).items, l.items)
  {
  }

  lemma BelowWithin(items: Items, t: int)
    ensures forall n | n in Below(items, t) :: n in items && Below(items, t)[n] == items[n]
  {
  }

  lemma NoneEnumerated()
    ensures Enumerates([], map[])
  {
  }

  function Above(lowest: Uint64): Tx -> bool {
    (tx: Tx) => tx.nonce > lowest
  }

  method LowestNonce(removed: seq<Tx>) returns (lowest: Uint64)
    requires removed != []
    ensures forall i :: 0 <= i < |removed| ==> lowest <= removed[i].nonce
    ensures exists i :: 0 <= i < |removed| && lowest == removed[i].nonce
  {
    lowest := 0xffff_ffff_ffff_ffff;
    for i := 0 to |removed|
      invariant forall k :: 0 <= k < i ==> lowest <= removed[k].nonce
      invariant lowest == 0xffff_ffff_ffff_ffff || exists k :: 0 <= k < i && lowest == removed[k].nonce
    {
      if lowest > removed[i].nonce {
        lowest := removed[i].nonce;
      }
    }
    assert lowest <= removed[0].nonce;
  }

  lemma NothingTooDear(l: List, costLimit: int, gasLimit: Uint64)
    requires l.Bounded() && l.costcap <= costLimit && l.gascap <= gasLimit
    ensures Reject(l.items, TooDear(costLimit, gasLimit)) == map[]
    ensures Keep(l.items, TooDear(costLimit, gasLimit)) - l.items.Keys == map[]
    ensures Enumerates([], map[])
  {
    assert forall n | n in l.items :: !TooDear(costLimit, gasLimit)(l.items[n]);
  }

  lemma NoneRejected(items: Items, doomed: Tx -> bool, removed: seq<Tx>)
    requires Keyed(items) && Enumerates(removed, Reject(items, doomed))
    ensures removed == [] ==> Keep(items, doomed) == KeepBeforeFirst(items, doomed)
    ensures Keep(items, doomed) - Keep(items, doomed).Keys == map[]
    ensures Enumerates([], map[])
  {
    if removed == [] {
      forall n | n in items
        ensures !doomed(items[n])
      {
        assert !Holds(Reject(items, doomed), items[n]);
      }
    }
  }

  /** Cutting above the lowest doomed nonce keeps exactly what lies before the first doomed entry. */
  lemma AboveLowest(items: Items, doomed: Tx -> bool, removed: seq<Tx>, lowest: Uint64)
    requires Keyed(items) && Enumerates(removed, Reject(items, doomed))
    requires forall i :: 0 <= i < |removed| ==> lowest <= removed[i].nonce
    requires exists i :: 0 <= i < |removed| && lowest == removed[i].nonce
    ensures Keep(Keep(items, doomed), Above(lowest)) == KeepBeforeFirst(items, doomed)
    ensures Reject(Keep(items, doomed), Above(lowest)) == Keep(items, doomed) - KeepBeforeFirst(items, doomed).Keys
  {
    Members(removed, Reject(items, doomed));
    forall m | m in items && doomed(items[m])
      ensures lowest <= m
    {
      assert Holds(Reject(items, doomed), items[m]);
    }
    CutAtFirst(items, doomed, lowest);
  }

  lemma CutAtFirst(items: Items, doomed: Tx -> bool, first: Uint64)
    requires Keyed(items) && first in items && doomed(items[first])
    requires forall m | m in items && doomed(items[m]) :: first <= m
    ensures Keep(Keep(items, doomed), Above(first)) == KeepBeforeFirst(items, doomed)
    ensures Reject(Keep(items, doomed), Above(first)) == Keep(items, doomed) - KeepBeforeFirst(items, doomed).Keys
  {
    BeforeFirst(items, doomed, first);
    var kept := Keep(items, doomed);
    KeepAbove(kept, first);
    assert AtLeast(kept, first) == kept - Below(kept, first).Keys;
  }

  lemma BeforeFirst(items: Items, doomed: Tx -> bool, first: Uint64)
    requires first in items && doomed(items[first])
    requires forall m | m in items && doomed(items[m]) :: first <= m
    ensures KeepBeforeFirst(items, doomed) == Below(items, first)
    ensures Below(Keep(items, doomed), first) == Below(items, first)
  {
    NoneBeforeFirst(items, doomed, first);
    assert (set n | n in items && !NoneUpTo(items, doomed, n)) == (set n | n in items && n >= first) by {
      hide NoneUpTo;
    }
    BelowKept(items, doomed, first);
  }

  lemma BelowKept(items: Items, doomed: Tx -> bool, first: Uint64)
    requires forall m | m in items && doomed(items[m]) :: first <= m
    ensures Below(Keep(items, doomed), first) == Below(items, first)
  {
    var kept := Keep(items, doomed);
    assert forall n :: n in Below(kept, first) <==> n in kept && n < first;
    assert forall n :: n in kept <==> n in items && !doomed(items[n]);
  }

  lemma NoneBeforeFirst(items: Items, doomed: Tx -> bool, first: Uint64)
    requires first in items && doomed(items[first])
    requires forall m | m in items && doomed(items[m]) :: first <= m
    ensures forall n | n in items :: NoneUpTo(items, doomed, n) <==> n < first
  {
  }

  lemma KeepAbove(items: Items, nonce: Uint64)
    requires Keyed(items) && nonce !in items
    ensures Keep(items, Above(nonce)) == Below(items, nonce)
    ensures Reject(items, Above(nonce)) == AtLeast(items, nonce)
  {
  }

  lemma AboveRemoved(items: Items, nonce: Uint64)
    requires Keyed(items) && nonce in items
    ensures Keep(items - {nonce}, Above(nonce)) == Below(items, nonce)
    ensures Reject(items - {nonce}, Above(nonce)) == AtLeast(items, nonce + 1)
  {
    KeepAbove(items - {nonce}, nonce);
    assert Below(items - {nonce}, nonce) == Below(items, nonce);
    assert AtLeast(items - {nonce}, nonce) == AtLeast(items, nonce + 1);
  }

  // ---------- the data structure ----------

  class TxList {
    const strict: bool
    const txs: TxSortedMap
    var costcap: int
    var gascap: Uint64

    ghost function Model(): List
      reads this, txs
    {
      List(strict, txs.items, costcap, gascap)
    }

    ghost predicate Valid()
      reads this, txs
    {
      txs.Valid() && Model().Bounded()
    }

    constructor (strict: bool)
      ensures Valid() && fresh(txs)
      ensures Model() == List(strict, map[], 0, 0)
    {
      this.strict := strict;
      txs := new TxSortedMap();
      costcap := 0;
      gascap := 0;
    }

    method Add(tx: Tx, bump: nat) returns (inserted: bool, replaced: Option<Tx>)
      requires Valid()
      modifies this, txs
      ensures Valid()
      ensures inserted == old(Model()).Accepts(tx, bump)
      ensures replaced == if inserted then old(txs.Get(tx.nonce)) else None
      ensures Model() == if inserted then old(Model()).Add(tx) else old(Model())
    {
      AddBounded(Model(), tx);
      replaced := txs.Get(tx.nonce);
      if replaced.Some? {
        var threshold := replaced.value.price * (100 + bump) / 100;
        if replaced.value.price >= tx.price || threshold > tx.price {
          return false, None;
        }
      }
      txs.Put(tx);
      if costcap < tx.Cost() {
        costcap := tx.Cost();
      }
      if gascap < tx.gas {
        gascap := tx.gas;
      }
      inserted := true;
    }

    method Forward(threshold: Uint64) returns (removed: seq<Tx>)
      requires Valid()
      modifies txs
      ensures Valid()
      ensures Model() == old(Model()).Forward(threshold)
      ensures Listing(removed, Below(old(txs.items), threshold))
    {
      removed := txs.Forward(threshold);
      SmallerBounded(old(Model()), txs.items);
    }

    /** Takes out what is too dear, and in strict mode everything above the first such nonce. */
    method Filter(costLimit: int, gasLimit: Uint64) returns (removed: seq<Tx>, invalids: seq<Tx>)
      requires Valid()
      modifies this, txs
      ensures Valid()
      ensures Model() == old(Model()).Filter(costLimit, gasLimit)
      ensures Enumerates(removed, Reject(old(txs.items), TooDear(costLimit, gasLimit)))
      ensures Enumerates(invalids, Keep(old(txs.items), TooDear(costLimit, gasLimit)) - txs.items.Keys)
    {
      removed, invalids := [], [];
      FilterBounded(Model(), costLimit, gasLimit);
      ShortCircuitExact(Model(), costLimit, gasLimit);
      if costcap <= costLimit && gascap <= gasLimit {
        NothingTooDear(Model(), costLimit, gasLimit);
        return;
      }
      costcap := costLimit;
      gascap := gasLimit;
      removed := txs.Filter(TooDear(costLimit, gasLimit));
      if strict && |removed| > 0 {
        var lowest := LowestNonce(removed);
        AboveLowest(old(txs.items), TooDear(costLimit, gasLimit), removed, lowest);
        invalids := txs.Filter(Above(lowest));
      } else {
        NoneRejected(old(txs.items), TooDear(costLimit, gasLimit), removed);
      }
    }

    method Cap(threshold: nat) returns (drops: seq<Tx>)
      requires Valid()
      modifies txs
      ensures Valid()
      ensures Model() == old(Model()).Cap(threshold)
      ensures Listing(Reversed(drops), old(txs.items) - txs.items.Keys)
    {
      drops := txs.Cap(threshold);
      SmallerBounded(old(Model()), txs.items);
    }

    /** Removes by nonce; in strict mode everything above is taken out too and returned. */
    method Remove(tx: Tx) returns (found: bool, invalids: seq<Tx>)
      requires Valid()
      modifies txs
      ensures Valid()
      ensures found == (tx.nonce in old(txs.items))
      ensures Model() == old(Model()).Remove(tx.nonce)
      ensures Enumerates(invalids, if found && strict then AtLeast(old(txs.items), tx.nonce + 1) else map[])
    {
      hide Keep, Reject, AtLeast, Below, Enumerates, Listing, Heap.IsHeap;
      invalids := [];
      NoneEnumerated();
      BelowWithin(txs.items, tx.nonce);
      found := txs.Remove(tx.nonce);
      if found && strict {
        AboveRemoved(old(txs.items), tx.nonce);
        invalids := txs.Filter(Above(tx.nonce));
      }
      SmallerBounded(old(Model()), txs.items);
    }

    method Ready(start: Uint64) returns (ready: seq<Tx>)
      requires Valid()
      modifies txs
      ensures Valid()
      ensures Model() == old(Model()).Ready(start)
      ensures Listing(ready, ReadyRun(old(txs.items), start))
    {
      ready := txs.Ready(start);
      SmallerBounded(old(Model()), txs.items);
    }
  }
}
