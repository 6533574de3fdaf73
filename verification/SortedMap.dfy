/**
 The nonce-indexed transaction map of the pool (l2geth/core/tx_list.go): a hash map, a
 heap of its nonces and a lazily built sorted cache.
 */
module SortedMap {
  import opened Wrappers
  import opened Transactions
  import opened Sums
  import Heap

  type Items = map<Uint64, Tx>

  ghost predicate Keyed(items: Items) {
    forall n | n in items :: items[n].nonce == n
  }

  ghost predicate Holds(items: Items, tx: Tx) {
    tx.nonce in items && items[tx.nonce] == tx
  }

  ghost predicate Ascending(txs: seq<Tx>) {
    forall i, j :: 0 <= i < j < |txs| ==> txs[i].nonce < txs[j].nonce
  }

  /** `txs` holds every transaction of `items` exactly once, in any order. */
  ghost predicate Enumerates(txs: seq<Tx>, items: Items) {
    && (forall tx :: tx in txs <==> Holds(items, tx))
    && (forall i, j :: 0 <= i < j < |txs| ==> txs[i].nonce != txs[j].nonce)
  }

  /** `txs` is the nonce-sorted contents of `items`. */
  ghost predicate Listing(txs: seq<Tx>, items: Items) {
    Enumerates(txs, items) && Ascending(txs)
  }

  // ---------- what each operation means on a plain map ----------

  function Below(items: Items, threshold: int): Items {
    items - (set n | n in items && n >= threshold)
  }

  function AtLeast(items: Items, threshold: int): Items {
    items - (set n | n in items && n < threshold)
  }

  function NoncesBelow(items: Items, n: int): set<Uint64> {
    set m | m in items && m < n
  }

  /** The `k` entries with the lowest nonces. */
  function Lowest(items: Items, k: nat): Items {
    items - (set n | n in items && |NoncesBelow(items, n)| >= k)
  }

  predicate InFirstRun(items: Items, n: Uint64) {
    forall p, j | p in items && p <= j <= n :: j in items
  }

  /** The maximal gap-free run from the lowest nonce, if that nonce is at most `start`. */
  function ReadyRun(items: Items, start: Uint64): Items {
    if exists m | m in items :: m <= start
    then items - (set n | n in items && !InFirstRun(items, n))
    else map[]
  }

  // ---------- listings ----------

  lemma Members(txs: seq<Tx>, items: Items)
    requires Enumerates(txs, items)
    ensures forall i :: 0 <= i < |txs| ==> Holds(items, txs[i])
  {
    assert forall i :: 0 <= i < |txs| ==> txs[i] in txs;
  }

  lemma Cut(txs: seq<Tx>, k: nat, items: Items)
    requires Keyed(items) && Enumerates(txs, items) && k <= |txs|
    ensures forall tx :: tx in txs[..k] <==> Holds(items, tx) && tx !in txs[k..]
    ensures forall i, j :: 0 <= i < j < |txs| ==> txs[i].nonce != txs[j].nonce
  {
    assert txs == txs[..k] + txs[k..];
    forall tx | tx in txs[..k]
      ensures tx !in txs[k..]
    {
      var i :| 0 <= i < k && txs[i] == tx;
    }
  }

  lemma {:induction false} EnumeratesSize(txs: seq<Tx>, items: Items)
    requires Keyed(items) && Enumerates(txs, items)
    ensures |txs| == |items|
    decreases |txs|
  {
    if txs == [] {
      forall n | n in items
        ensures false
      {
        assert Holds(items, items[n]);
      }
      assert items == map[];
    } else {
      var k := |txs| - 1;
      var last := txs[k];
      assert Holds(items, last);
      Cut(txs, k, items);
      assert txs[k..] == [last];
      EnumeratesSize(txs[..k], items - {last.nonce});
      assert items.Keys == (items - {last.nonce}).Keys + {last.nonce};
    }
  }

  /** The part of a listing with nonces in a range lists that part of the map. */
  lemma ListingSplit(c: seq<Tx>, items: Items, t: int) returns (k: nat)
    requires Keyed(items) && Listing(c, items)
    ensures k <= |c|
    ensures forall i :: 0 <= i < |c| ==> (i < k <==> c[i].nonce < t)
    ensures Listing(c[..k], Below(items, t)) && Listing(c[k..], AtLeast(items, t))
  {
    k := 0;
    while k < |c| && c[k].nonce < t
      invariant k <= |c|
      invariant forall i :: 0 <= i < k ==> c[i].nonce < t
    {
      k := k + 1;
    }
    Members(c, items);
    ListingPart(c, items, 0, k, Below(items, t));
    ListingPart(c, items, k, |c|, AtLeast(items, t));
    assert c[0..k] == c[..k] && c[k..|c|] == c[k..];
  }

  lemma ListingPart(c: seq<Tx>, items: Items, lo: nat, hi: nat, part: Items)
    requires Keyed(items) && Listing(c, items) && lo <= hi <= |c|
    requires forall i :: 0 <= i < |c| ==> (lo <= i < hi <==> c[i].nonce in part)
    requires part.Keys <= items.Keys && forall n | n in part :: part[n] == items[n]
    ensures Listing(c[lo..hi], part)
  {
    forall tx
      ensures tx in c[lo..hi] <==> Holds(part, tx)
    {
      if Holds(part, tx) {
        assert Holds(items, tx);
        var i :| 0 <= i < |c| && c[i] == tx;
        assert c[lo..hi][i - lo] == tx;
      }
      if tx in c[lo..hi] {
        var i :| lo <= i < hi && c[i] == tx;
        assert Holds(items, c[i]);
      }
    }
  }

  /** Exactly `i` nonces lie below the nonce at position `i` of a listing. */
  lemma ListingRank(c: seq<Tx>, items: Items, i: nat)
    requires Keyed(items) && Listing(c, items) && i < |c|
    ensures |NoncesBelow(items, c[i].nonce)| == i
  {
    var k := ListingSplit(c, items, c[i].nonce);
    assert k == i by {
      assert k < |c| ==> c[k].nonce >= c[i].nonce;
    }
    var low := Below(items, c[i].nonce);
    EnumeratesSize(c[..k], low);
    assert low.Keys == NoncesBelow(items, c[i].nonce);
  }

  lemma ListingUnique(a: seq<Tx>, b: seq<Tx>, items: Items)
    requires Keyed(items) && Listing(a, items) && Listing(b, items)
    ensures a == b
  {
    EnumeratesSize(a, items);
    EnumeratesSize(b, items);
    Members(a, items);
    forall i | 0 <= i < |a|
      ensures a[i] == b[i]
    {
      var j :| 0 <= j < |b| && b[j] == a[i];
      ListingRank(a, items, i);
      ListingRank(b, items, j);
    }
  }

  /** The lowest `k` entries are the first `k` of a listing, and the rest the others. */
  lemma ListingTake(c: seq<Tx>, items: Items, k: nat)
    requires Keyed(items) && Listing(c, items) && k <= |c|
    ensures Listing(c[..k], Lowest(items, k))
    ensures Listing(c[k..], items - Lowest(items, k).Keys)
    ensures |Lowest(items, k)| == k
  {
    var low := Lowest(items, k);
    Members(c, items);
    forall i | 0 <= i < |c|
      ensures c[i].nonce in low <==> i < k
    {
      ListingRank(c, items, i);
    }
    ListingPart(c, items, 0, k, low);
    ListingPart(c, items, k, |c|, items - low.Keys);
    assert c[0..k] == c[..k] && c[k..|c|] == c[k..];
    EnumeratesSize(c[..k], low);
  }

  lemma Highest(keys: set<Uint64>) returns (top: Uint64)
    requires keys != {}
    ensures top in keys && forall n | n in keys :: n <= top
    decreases |keys|
  {
    top :| top in keys;
    if keys != {top} {
      var other := Highest(keys - {top});
      assert forall n | n in keys :: n == top || n in keys - {top};
      top := if top < other then other else top;
    }
  }

  lemma ExtendListing(low: seq<Tx>, rest: Items, items: Items, top: Uint64)
    requires Keyed(items) && top in items && rest == items - {top} && Listing(low, rest)
    requires forall n | n in items :: n <= top
    ensures Listing(low + [items[top]], items)
  {
    Members(low, rest);
    assert forall tx :: Holds(items, tx) <==> Holds(rest, tx) || tx == items[top];
  }

  /** Any keyed map has a nonce-sorted listing. */
  lemma SomeListing(items: Items) returns (order: seq<Tx>)
    requires Keyed(items)
    ensures Listing(order, items)
    decreases |items|
  {
    if items == map[] {
      order := [];
    } else {
      var top := Highest(items.Keys);
      var rest := items - {top};
      assert items.Keys == rest.Keys + {top};
      var low := SomeListing(rest);
      ExtendListing(low, rest, items, top);
      order := low + [items[top]];
    }
  }

  // ---------- the heap index ----------

  function NonceRank(n: Uint64): int { n }

  /** `index` is a min-heap holding each nonce of `items` exactly once. */
  ghost predicate Indexed(items: Items, index: seq<Uint64>) {
    && Keyed(items)
    && Heap.IsHeap(index, NonceRank)
    && multiset(index) == multiset(items.Keys)
  }

  lemma IndexIsHeap(items: Items, index: seq<Uint64>)
    requires Indexed(items, index)
    ensures Heap.IsHeap(index, NonceRank)
  {
  }

  lemma IndexKeys(items: Items, index: seq<Uint64>)
    requires Indexed(items, index)
    ensures forall n :: n in index <==> n in items
    ensures |index| == |items|
  {
    forall n
      ensures n in index <==> n in items.Keys
    {
      assert n in index <==> n in multiset(index);
    }
    assert |multiset(index)| == |index| && |multiset(items.Keys)| == |items.Keys|;
  }

  /** The root of the index is the lowest nonce. */
  lemma RootIsLowest(items: Items, index: seq<Uint64>)
    requires Indexed(items, index)
    ensures |index| == |items|
    ensures |index| > 0 ==> index[0] in items && forall n | n in items :: index[0] <= n
  {
    IndexKeys(items, index);
    forall n | n in items
      ensures index[0] <= n
    {
      var j :| 0 <= j < |index| && index[j] == n;
      Heap.RootIsLeast(index, NonceRank, j);
    }
  }

  lemma IndexPut(items: Items, index: seq<Uint64>, tx: Tx, index': seq<Uint64>)
    requires Indexed(items, index) && Heap.IsHeap(index', NonceRank)
    requires multiset(index') == if tx.nonce in items then multiset(index) else multiset(index) + multiset{tx.nonce}
    ensures Indexed(items[tx.nonce := tx], index')
  {
    var items' := items[tx.nonce := tx];
    if tx.nonce in items {
      assert items'.Keys == items.Keys;
    } else {
      assert items'.Keys == items.Keys + {tx.nonce};
      assert multiset(items'.Keys) == multiset(items.Keys) + multiset{tx.nonce};
    }
  }

  lemma IndexDelete(items: Items, index: seq<Uint64>, nonce: Uint64, index': seq<Uint64>)
    requires Indexed(items, index) && Heap.IsHeap(index', NonceRank) && nonce in items
    requires multiset(index') + multiset{nonce} == multiset(index)
    ensures Indexed(items - {nonce}, index')
  {
    var rest := items - {nonce};
    assert items.Keys == rest.Keys + {nonce};
    assert multiset(rest.Keys) == multiset(items.Keys) - multiset{nonce};
    assert multiset(index') == multiset(index) - multiset{nonce};
  }

  /** What is left of `all` while its lowest entries move, in order, to `removed`. */
  ghost predicate Drained(all: Items, items: Items, removed: seq<Tx>) {
    && Keyed(all)
    && items.Keys <= all.Keys
    && (forall n | n in items :: items[n] == all[n])
    && Listing(removed, all - items.Keys)
    && (forall i, n :: 0 <= i < |removed| && n in items ==> removed[i].nonce < n)
  }

  lemma DrainStep(all: Items, items: Items, removed: seq<Tx>, nonce: Uint64)
    requires Drained(all, items, removed)
    requires nonce in items && forall n | n in items :: nonce <= n
    ensures Drained(all, items - {nonce}, removed + [items[nonce]])
  {
    var longer := removed + [items[nonce]];
    assert forall tx :: Holds(all - (items - {nonce}).Keys, tx) <==>
           Holds(all - items.Keys, tx) || tx == items[nonce];
    assert forall tx :: tx in longer <==> tx in removed || tx == items[nonce];
    assert forall i :: 0 <= i < |removed| ==> longer[i] == removed[i] && longer[i].nonce < nonce;
  }

  lemma DrainedBelow(all: Items, items: Items, removed: seq<Tx>, t: int)
    requires Drained(all, items, removed)
    requires forall n | n in items :: n >= t
    requires forall i :: 0 <= i < |removed| ==> removed[i].nonce < t
    ensures items == AtLeast(all, t) && Listing(removed, Below(all, t))
  {
    forall n | n in all && n !in items
      ensures n < t
    {
      assert Holds(all - items.Keys, all[n]);
      var i :| 0 <= i < |removed| && removed[i] == all[n];
    }
    assert all - items.Keys == Below(all, t);
  }

  ghost predicate Consecutive(txs: seq<Tx>, first: Uint64) {
    forall i :: 0 <= i < |txs| ==> txs[i].nonce == first + i
  }

  /** Consecutive nonces from the lowest one of `all`, up to the first hole. */
  ghost predicate MaximalRun(all: Items, txs: seq<Tx>)
    requires txs != []
  {
    && Consecutive(txs, txs[0].nonce)
    && (forall n | n in all :: txs[0].nonce <= n)
    && txs[0].nonce + |txs| !in all
  }

  /** A drained consecutive run with a gap behind it is the ready run. */
  lemma ReadyDone(all: Items, items: Items, ready: seq<Tx>, first: Uint64, start: Uint64)
    requires Drained(all, items, ready) && Consecutive(ready, first)
    requires first in all && first <= start && forall n | n in all :: first <= n
    requires first + |ready| !in items
    ensures all - items.Keys == ReadyRun(all, start)
    ensures items == all - ReadyRun(all, start).Keys
  {
    RunGap(all, items, ready, first);
    forall n | n in all
      ensures n !in items <==> InFirstRun(all, n)
    {
      RunFrom(all, first, n);
    }
  }

  lemma NoneReady(items: Items, start: Uint64)
    requires forall n | n in items :: n > start
    ensures ReadyRun(items, start) == map[] && Listing([], map[]) && items - {} == items
  {
  }

  /** One more transaction at the front of what is left extends the run. */
  lemma RunStep(all: Items, items: Items, ready: seq<Tx>, first: Uint64, tx: Tx)
    requires Drained(all, items, ready) && Consecutive(ready, first)
    requires tx.nonce in items && items[tx.nonce] == tx && tx.nonce == first + |ready|
    requires forall n | n in items :: tx.nonce <= n
    ensures Drained(all, items - {tx.nonce}, ready + [tx]) && Consecutive(ready + [tx], first)
  {
    DrainStep(all, items, ready, tx.nonce);
  }

  /** With the lowest nonce known, being in the first run means no hole down to it. */
  lemma RunFrom(all: Items, first: Uint64, n: Uint64)
    requires first in all && forall m | m in all :: first <= m
    ensures InFirstRun(all, n) <==> forall j: Uint64 :: first <= j <= n ==> j in all
  {
    if forall j: Uint64 :: first <= j <= n ==> j in all {
      assert InFirstRun(all, n);
    }
  }

  /** Wrapping of the expected nonce at 2^64 never makes an unrelated root look like the next one. */
  lemma RunNext(all: Items, items: Items, index: seq<Uint64>, ready: seq<Tx>, first: Uint64)
    requires Indexed(items, index) && Drained(all, items, ready) && Consecutive(ready, first)
    requires forall n | n in all :: first <= n
    ensures |index| > 0 && index[0] == Wrap(first + |ready|) ==> index[0] == first + |ready|
    ensures |index| == 0 || index[0] != Wrap(first + |ready|) ==> first + |ready| !in items
  {
    RootIsLowest(items, index);
    if |index| > 0 {
      assert |ready| > 0 ==> ready[|ready| - 1].nonce < index[0];
      assert first + |ready| <= index[0];
    }
  }

  lemma RunGap(all: Items, items: Items, ready: seq<Tx>, first: Uint64)
    requires Drained(all, items, ready) && Consecutive(ready, first)
    requires first in all && forall n | n in all :: first <= n
    requires first + |ready| !in items
    ensures first + |ready| !in all
    ensures forall n | n in items :: first + |ready| < n
    ensures forall n | n in all && n !in items :: n < first + |ready|
    ensures forall j: Uint64 :: first <= j < first + |ready| ==> j in all
  {
    var gap := first + |ready|;
    Members(ready, all - items.Keys);
    assert forall tx | tx in ready :: tx.nonce < gap;
    forall n | n in all && n !in items
      ensures n < gap
    {
      assert Holds(all - items.Keys, all[n]);
    }
    forall j: Uint64 | first <= j < gap
      ensures j in all
    {
      assert ready[j - first].nonce == j;
    }
    assert |ready| > 0 ==> ready[|ready| - 1].nonce == gap - 1;
  }

  /** What is not part of the ready run lies above `start`, or behind a gap after the run. */
  lemma RestAfterRun(items: Items, start: Uint64, txs: seq<Tx>)
    requires Keyed(items) && Listing(txs, ReadyRun(items, start))
    ensures txs == [] ==> forall n | n in items :: n > start
    ensures txs != [] ==> forall n | n in items && n !in ReadyRun(items, start) :: n > txs[|txs| - 1].nonce + 1
  {
    var run := ReadyRun(items, start);
    if txs == [] {
      if items != map[] {
        var low := LeastNonce(items.Keys);
        LeastInRun(items, start, low);
      }
    } else {
      Members(txs, run);
      var top := txs[|txs| - 1].nonce;
      assert InFirstRun(items, top);
      forall n | n in items && n !in run
        ensures n > top + 1
      {
        NextInRun(items, top, n);
      }
    }
  }

  lemma LeastInRun(items: Items, start: Uint64, low: Uint64)
    requires Keyed(items) && low in items && forall n | n in items :: low <= n
    ensures low <= start ==> Holds(ReadyRun(items, start), items[low])
  {
    assert InFirstRun(items, low);
  }

  lemma NextInRun(items: Items, top: Uint64, n: Uint64)
    requires top in items && InFirstRun(items, top) && n in items
    ensures n <= top + 1 ==> InFirstRun(items, n)
  {
  }

  lemma {:induction false} LeastNonce(keys: set<Uint64>) returns (low: Uint64)
    requires keys != {}
    ensures low in keys && forall n | n in keys :: low <= n
    decreases |keys|
  {
    var k :| k in keys;
    low := k;
    if keys != {k} {
      assert keys - {k} != {};
      var other := LeastNonce(keys - {k});
      assert forall n | n in keys :: n == k || n in keys - {k};
      if other < k {
        low := other;
      }
    }
  }

  function Lookup(items: Items, keys: seq<Uint64>): (txs: seq<Tx>)
    requires forall k | k in keys :: k in items
  {
    seq(|keys|, i requires 0 <= i < |keys| => items[keys[i]])
  }

  /** Looking up the sorted nonces lists the contents in order. */
  lemma SortedIndex(items: Items, index: seq<Uint64>)
    requires Keyed(items) && multiset(index) == multiset(items.Keys)
    requires forall i, j :: 0 <= i < j < |index| ==> index[i] <= index[j]
    ensures forall k | k in index :: k in items
    ensures Listing(Lookup(items, index), items)
    ensures Nonces(Lookup(items, index)) == index
  {
    forall k
      ensures k in index <==> k in items
    {
      assert k in index <==> k in multiset(index);
    }
    var txs := Lookup(items, index);
    forall i, j | 0 <= i < j < |index|
      ensures txs[i].nonce < txs[j].nonce
    {
      if index[i] == index[j] {
        CountTwice(index, i, j);
        assert false;
      }
    }
    forall tx | Holds(items, tx)
      ensures tx in txs
    {
      var i :| 0 <= i < |index| && index[i] == tx.nonce;
      assert txs[i] == tx;
    }
  }

  lemma {:induction false} OnceEach(order: seq<Tx>, items: Items)
    requires Keyed(items) && Listing(order, items)
    ensures multiset(Nonces(order)) == multiset(items.Keys)
    decreases |order|
  {
    EnumeratesSize(order, items);
    if order != [] {
      var k := |order| - 1;
      ListingTake(order, items, k);
      var low := Lowest(items, k);
      OnceEach(order[..k], low);
      assert Nonces(order) == Nonces(order[..k]) + [order[k].nonce];
      assert order[k..] == [order[k]];
      assert Holds(items - low.Keys, order[k]);
      forall n | n in items && n !in low
        ensures n == order[k].nonce
      {
        assert Holds(items - low.Keys, items[n]);
      }
      assert items.Keys == low.Keys + {order[k].nonce};
    }
  }

  lemma LowestAll(items: Items, k: nat)
    requires Keyed(items) && |items| <= k
    ensures Lowest(items, k) == items
  {
    forall n | n in items
      ensures |NoncesBelow(items, n)| < k
    {
      assert n !in NoncesBelow(items, n);
      ProperSubsetSize(NoncesBelow(items, n), items.Keys);
    }
  }

  lemma {:induction false} ProperSubsetSize(a: set<Uint64>, b: set<Uint64>)
    requires a < b
    ensures |a| < |b|
  {
    var x :| x in b && x !in a;
    assert a <= b - {x};
    var d := (b - {x}) - a;
    assert b - {x} == a + d;
    assert |b - {x}| == |a| + |d|;
  }

  lemma LowestMembers(items: Items, k: nat)
    ensures forall n :: n in Lowest(items, k) <==> n in items && |NoncesBelow(items, n)| < k
    ensures forall n | n in Lowest(items, k) :: Lowest(items, k)[n] == items[n]
  {
  }

  /** The place of a nonce in the listing is the number of lower nonces. */
  lemma PlaceOf(order: seq<Tx>, items: Items, n: Uint64) returns (i: nat)
    requires Keyed(items) && Listing(order, items) && n in items
    ensures i < |order| && order[i] == items[n] && |NoncesBelow(items, n)| == i
    ensures forall k :: 0 <= k < |order| ==> (order[k].nonce == n <==> k == i)
  {
    assert Holds(items, items[n]);
    i :| 0 <= i < |order| && order[i] == items[n];
    ListingRank(order, items, i);
  }

  lemma LowestStep(order: seq<Tx>, items: Items, size: nat)
    requires Keyed(items) && Listing(order, items) && 0 < size <= |order|
    ensures Holds(Lowest(items, size), order[size - 1])
    ensures Lowest(items, size) - {order[size - 1].nonce} == Lowest(items, size - 1)
    ensures order[size - 1..] == [order[size - 1]] + order[size..]
  {
    Members(order, items);
    LowestMembers(items, size);
    LowestMembers(items, size - 1);
    ListingRank(order, items, size - 1);
    hide Lowest, NoncesBelow, Listing;
    forall n | n in items
      ensures |NoncesBelow(items, n)| < size && n != order[size - 1].nonce <==> |NoncesBelow(items, n)| < size - 1
    {
      var i := PlaceOf(order, items, n);
    }
  }

  lemma CapDone(order: seq<Tx>, all: Items, k: nat, cache: Option<seq<Tx>>)
    requires Keyed(all) && Listing(order, all) && k <= |order|
    requires cache.Some? ==> Listing(cache.value, all)
    ensures Keyed(Lowest(all, k))
    ensures Listing(order[k..], all - Lowest(all, k).Keys)
    ensures multiset(Nonces(order)[..k]) == multiset(Lowest(all, k).Keys)
    ensures cache.Some? ==> |cache.value| == |order| && Listing(cache.value[..k], Lowest(all, k))
  {
    ListingTake(order, all, k);
    OnceEach(order[..k], Lowest(all, k));
    assert Nonces(order)[..k] == Nonces(order[..k]);
    if cache.Some? {
      ListingUnique(cache.value, order, all);
    }
  }

  lemma CacheForward(cache: Option<seq<Tx>>, all: Items, removed: seq<Tx>, t: int)
    requires Keyed(all) && Listing(removed, Below(all, t))
    requires cache.Some? ==> Listing(cache.value, all)
    ensures cache.Some? ==> |removed| <= |cache.value| && Listing(cache.value[|removed|..], AtLeast(all, t))
  {
    if cache.Some? {
      var k := ListingSplit(cache.value, all, t);
      ListingUnique(removed, cache.value[..k], Below(all, t));
    }
  }

  function Keep(items: Items, doomed: Tx -> bool): Items {
    items - (set n | n in items && doomed(items[n]))
  }

  function Reject(items: Items, doomed: Tx -> bool): Items {
    items - (set n | n in items && !doomed(items[n]))
  }

  /** A scan in progress: entries outside `rest` have been judged, those inside are untouched. */
  ghost predicate Sifted(all: Items, items: Items, rest: set<Uint64>, removed: seq<Tx>, doomed: Tx -> bool) {
    && Keyed(all)
    && (forall n :: n in items <==> n in all && (n in rest || !doomed(all[n])))
    && (forall n | n in items :: items[n] == all[n])
    && Enumerates(removed, all - items.Keys)
  }

  lemma SiftStart(all: Items, doomed: Tx -> bool)
    requires Keyed(all)
    ensures Sifted(all, all, all.Keys, [], doomed)
  {
  }

  lemma SiftStep(all: Items, items: Items, rest: set<Uint64>, removed: seq<Tx>, doomed: Tx -> bool, n: Uint64)
    requires Sifted(all, items, rest, removed, doomed) && n in rest && n in items
    ensures doomed(items[n]) ==> Sifted(all, items - {n}, rest - {n}, removed + [items[n]], doomed)
    ensures !doomed(items[n]) ==> Sifted(all, items, rest - {n}, removed, doomed)
  {
    if doomed(items[n]) {
      Members(removed, all - items.Keys);
      assert forall tx :: Holds(all - (items - {n}).Keys, tx) <==>
             Holds(all - items.Keys, tx) || tx == items[n];
    }
  }

  lemma SiftDone(all: Items, items: Items, removed: seq<Tx>, doomed: Tx -> bool)
    requires Sifted(all, items, {}, removed, doomed)
    ensures items == Keep(all, doomed) && Enumerates(removed, Reject(all, doomed))
  {
    assert all - items.Keys == Reject(all, doomed);
    assert items.Keys == Keep(all, doomed).Keys;
  }

  /** The keys of a map, in any order. */
  method Keys(items: Items) returns (keys: seq<Uint64>)
    ensures multiset(keys) == multiset(items.Keys)
  {
    keys := [];
    var rest := items.Keys;
    while rest != {}
      invariant multiset(keys) + multiset(rest) == multiset(items.Keys)
      decreases |rest|
    {
      var n :| n in rest;
      assert rest == (rest - {n}) + {n};
      keys, rest := keys + [n], rest - {n};
    }
  }

  /** The transactions of a map, sorted by nonce. */
  method SortedContents(items: Items) returns (txs: seq<Tx>)
    requires Keyed(items)
    ensures Listing(txs, items)
  {
    var keys := Keys(items);
    var sorted := Heap.Sort(keys, NonceRank);
    SortedIndex(items, sorted);
    txs := Lookup(items, sorted);
  }

  ghost function Reversed(txs: seq<Tx>): (r: seq<Tx>)
    ensures |r| == |txs|
    ensures forall i :: 0 <= i < |txs| ==> r[i] == txs[|txs| - 1 - i]
  {
    seq(|txs|, i requires 0 <= i < |txs| => txs[|txs| - 1 - i])
  }

  ghost function Nonces(txs: seq<Tx>): (r: seq<Uint64>)
    ensures |r| == |txs|
    ensures forall i :: 0 <= i < |txs| ==> r[i] == txs[i].nonce
  {
    seq(|txs|, i requires 0 <= i < |txs| => txs[i].nonce)
  }

  /** Deletes the entries at the end of the sorted `index` until `threshold` are left. */
  method DropHighest(all: Items, index: seq<Uint64>, threshold: nat, ghost order: seq<Tx>)
    returns (items: Items, drops: seq<Tx>)
    requires Keyed(all) && Listing(order, all) && index == Nonces(order)
    requires threshold <= |order|
    ensures items == Lowest(all, threshold)
    ensures Reversed(drops) == order[threshold..]
  {
    EnumeratesSize(order, all);
    LowestAll(all, |all|);
    items, drops := all, [];
    var size := |all|;
    while size > threshold
      invariant threshold <= size <= |order|
      invariant |drops| == |order| - size
      invariant Reversed(drops) == order[size..]
      invariant items == Lowest(all, size)
    {
      LowestStep(order, all, size);
      drops := drops + [items[index[size - 1]]];
      items := items - {index[size - 1]};
      size := size - 1;
    }
  }

  datatype Op =
    | DoPut(tx: Tx)
    | DoForward(threshold: Uint64)
    | DoFilter(doomed: Tx -> bool)
    | DoCap(size: nat)
    | DoRemove(nonce: Uint64)
    | DoReady(start: Uint64)
    | DoFlatten

  /** What an operation does to a plain map from nonces to transactions. */
  ghost function Apply(items: Items, op: Op): Items {
    match op
    case DoPut(tx) => items[tx.nonce := tx]
    case DoForward(threshold) => AtLeast(items, threshold)
    case DoFilter(doomed) => Keep(items, doomed)
    case DoCap(size) => Lowest(items, size)
    case DoRemove(nonce) => items - {nonce}
    case DoReady(start) => items - ReadyRun(items, start).Keys
    case DoFlatten => items
  }

  ghost function ApplyAll(items: Items, ops: seq<Op>): Items {
    if ops == [] then items else Apply(ApplyAll(items, ops[..|ops| - 1]), ops[|ops| - 1])
  }

  class TxSortedMap {
    var items: Items
    var index: seq<Uint64>
    var cache: Option<seq<Tx>>

    /** The index is a heap of the stored nonces, each once; a cache is the sorted contents. */
    ghost predicate Valid()
      reads this
    {
      Indexed(items, index) && (cache.Some? ==> Listing(cache.value, items))
    }

    constructor ()
      ensures Valid() && items == map[]
    {
      items := map[];
      index := [];
      cache := None;
    }

    function Get(nonce: Uint64): (tx: Option<Tx>)
      reads this
    {
      if nonce in items then Some(items[nonce]) else None
    }

    method Put(tx: Tx)
      requires Valid()
      modifies this
      ensures Valid()
      ensures items == old(items)[tx.nonce := tx]
    {
      if tx.nonce !in items {
        index := Heap.Push(index, NonceRank, tx.nonce);
      }
      IndexPut(old(items), old(index), tx, index);
      items, cache := items[tx.nonce := tx], None;
    }

    /** Pops the root of the index and deletes its entry. */
    method PopLowest() returns (tx: Tx)
      requires Indexed(items, index) && |index| > 0
      modifies this`items, this`index
      ensures Indexed(items, index)
      ensures old(index[0]) in old(items) && tx == old(items)[old(index[0])]
      ensures forall n | n in old(items) :: tx.nonce <= n
      ensures items == old(items) - {tx.nonce}
      ensures |index| == |old(index)| - 1
    {
      RootIsLowest(items, index);
      var nonce;
      index, nonce := Heap.Pop(index, NonceRank);
      IndexDelete(items, old(index), nonce, index);
      tx := items[nonce];
      items := items - {nonce};
      RootIsLowest(items, index);
      assert old(items).Keys == items.Keys + {nonce};
    }

    method Forward(threshold: Uint64) returns (removed: seq<Tx>)
      requires Valid()
      modifies this
      ensures Valid()
      ensures items == AtLeast(old(items), threshold)
      ensures Listing(removed, Below(old(items), threshold))
      ensures cache.Some? == old(cache).Some?
    {
      removed := [];
      while |index| > 0 && index[0] < threshold
        invariant Indexed(items, index) && cache == old(cache)
        invariant Drained(old(items), items, removed)
        invariant forall i :: 0 <= i < |removed| ==> removed[i].nonce < threshold
        decreases |index|
      {
        ghost var before := items;
        var tx := PopLowest();
        DrainStep(old(items), before, removed, tx.nonce);
        removed := removed + [tx];
      }
      RootIsLowest(items, index);
      DrainedBelow(old(items), items, removed, threshold);
      CacheForward(cache, old(items), removed, threshold);
      if cache.Some? {
        cache := Some(cache.value[|removed|..]);
      }
    }

    /** Removes every transaction that satisfies `doomed`; the order of the result is arbitrary. */
    method Filter(doomed: Tx -> bool) returns (removed: seq<Tx>)
      requires Valid()
      modifies this
      ensures Valid()
      ensures items == Keep(old(items), doomed)
      ensures Enumerates(removed, Reject(old(items), doomed))
    {
      hide Keep, Reject, Listing, Enumerates;
      removed := [];
      SiftStart(items, doomed);
      var rest := items.Keys;
      while rest != {}
        invariant Keyed(items) && rest <= items.Keys
        invariant Sifted(old(items), items, rest, removed, doomed)
        invariant index == old(index) && cache == old(cache)
        invariant removed == [] ==> items == old(items)
        decreases |rest|
      {
        var nonce :| nonce in rest;
        SiftStep(old(items), items, rest, removed, doomed, nonce);
        if doomed(items[nonce]) {
          removed := removed + [items[nonce]];
          items := items - {nonce};
        }
        rest := rest - {nonce};
      }
      SiftDone(old(items), items, removed, doomed);
      if |removed| > 0 {
        var keys := Keys(items);
        index := Heap.Init(keys, NonceRank);
        cache := None;
      }
    }

    /** Drops the highest nonces, highest first, until `threshold` entries are left. */
    method Cap(threshold: nat) returns (drops: seq<Tx>)
      requires Valid()
      modifies this
      ensures Valid()
      ensures items == Lowest(old(items), threshold)
      ensures Listing(Reversed(drops), old(items) - items.Keys)
    {
      drops := [];
      if |items| <= threshold {
        LowestAll(items, threshold);
        assert items - items.Keys == map[];
        return;
      }
      index := Heap.Sort(index, NonceRank);
      SortedIndex(items, index);
      ghost var order := Lookup(items, index);
      EnumeratesSize(order, items);
      items, drops := DropHighest(items, index, threshold, order);
      CapDone(order, old(items), threshold, cache);
      index := Heap.Init(index[..threshold], NonceRank);
      if cache.Some? {
        cache := Some(cache.value[..|cache.value| - |drops|]);
      }
    }

    method Remove(nonce: Uint64) returns (found: bool)
      requires Valid()
      modifies this
      ensures Valid()
      ensures found == (nonce in old(items))
      ensures items == old(items) - {nonce}
    {
      if nonce !in items {
        return false;
      }
      DeleteIndex(nonce);
      items := items - {nonce};
      cache := None;
      return true;
    }

    /** Searches the index for a nonce and takes it out of the heap. */
    method DeleteIndex(nonce: Uint64)
      requires Indexed(items, index) && nonce in items
      modifies this`index
      ensures Indexed(items - {nonce}, index)
    {
      IndexKeys(items, index);
      hide Indexed, Heap.IsHeap;
      var i := 0;
      while i < |index|
        invariant 0 <= i <= |index| && index == old(index)
        invariant forall k :: 0 <= k < i ==> index[k] != nonce
      {
        if index[i] == nonce {
          var x;
          IndexIsHeap(items, index);
          index, x := Heap.Remove(index, NonceRank, i);
          IndexDelete(items, old(index), nonce, index);
          return;
        }
        i := i + 1;
      }
    }

    /** The accumulation loop of Ready: pops while the root is the expected next nonce. */
    method TakeRun() returns (ready: seq<Tx>)
      requires Indexed(items, index) && |index| > 0
      modifies this`items, this`index
      ensures Indexed(items, index)
      ensures Drained(old(items), items, ready)
      ensures Consecutive(ready, old(index[0]))
      ensures old(index[0]) + |ready| !in items
    {
      RootIsLowest(items, index);
      ghost var first := index[0];
      var next: int := index[0];
      ready := [];
      while |index| > 0 && index[0] == next
        invariant Indexed(items, index)
        invariant Drained(old(items), items, ready)
        invariant Consecutive(ready, first)
        invariant next == Wrap(first + |ready|)
        decreases |index|
      {
        ghost var before := items;
        RunNext(old(items), items, index, ready, first);
        var tx := PopLowest();
        RunStep(old(items), before, ready, first, tx);
        ready := ready + [tx];
        next := Wrap(next + 1);
      }
      RunNext(old(items), items, index, ready, first);
    }

    /** Takes out the maximal gap-free run from the lowest nonce, if that nonce is at most `start`. */
    method Ready(start: Uint64) returns (ready: seq<Tx>)
      requires Valid()
      modifies this
      ensures Valid()
      ensures Listing(ready, ReadyRun(old(items), start))
      ensures items == old(items) - ReadyRun(old(items), start).Keys
      ensures ready == [] <==> forall n | n in old(items) :: n > start
      ensures ready != [] ==> MaximalRun(old(items), ready)
    {
      ready := [];
      RootIsLowest(items, index);
      if |index| == 0 || index[0] > start {
        NoneReady(items, start);
        return;
      }
      ghost var first := index[0];
      assert first in items;
      ready := TakeRun();
      ReadyDone(old(items), items, ready, first, start);
      RunGap(old(items), items, ready, first);
      cache := None;
    }

    /** The nonce-sorted contents, cached for the next call. */
    method Flatten() returns (txs: seq<Tx>)
      requires Valid()
      modifies this`cache
      ensures Valid()
      ensures Listing(txs, items)
      ensures cache == Some(txs)
    {
      if cache == None {
        var sorted := SortedContents(items);
        cache := Some(sorted);
      }
      txs := cache.value;
    }

    function Len(): (n: nat)
      requires Valid()
      reads this
      ensures n == |index|
    {
      IndexKeys(items, index);
      |items|
    }

    /** Any sequence of operations leaves what the same operations leave of a plain map. */
    method Run(ops: seq<Op>)
      requires Valid()
      modifies this
      ensures Valid() && items == ApplyAll(old(items), ops)
    {
      hide Indexed, Listing, Lowest, ReadyRun;
      for i := 0 to |ops|
        invariant Valid() && items == ApplyAll(old(items), ops[..i])
      {
        assert ops[..i + 1][..i] == ops[..i];
        match ops[i] {
          case DoPut(tx) => Put(tx);
          case DoForward(threshold) => var removed := Forward(threshold);
          case DoFilter(doomed) => var removed := Filter(doomed);
          case DoCap(threshold) => var drops := Cap(threshold);
          case DoRemove(nonce) => var found := Remove(nonce);
          case DoReady(start) => var ready := Ready(start);
          case DoFlatten => var txs := Flatten();
        }
      }
      assert ops[..|ops|] == ops;
    }
  }
}
