/**
 Which queued transactions go when the queue is over its global limit
 (l2geth/core/tx_pool.go, truncateQueue), stated on plain maps.
 */
module QueueTruncation {
  import opened Transactions
  import opened SortedMap
  import opened TxLists
  import opened PricedList
  import opened PoolState
  import opened PoolSteps
  import opened Truncation
  import opened Sums

  ghost function NoncesOf(txs: seq<Tx>): set<Uint64> {
    set t | t in txs :: t.nonce
  }

  lemma NoncesListed(txs: seq<Tx>, items: Items)
    requires Keyed(items) && Enumerates(txs, items)
    ensures NoncesOf(txs) == items.Keys
  {
    forall n | n in items
      ensures n in NoncesOf(txs)
    {
      assert Holds(items, items[n]);
    }
  }

  /** The lists with some nonces of one account taken out. */
  function Reduced(lists: Lists, a: Address, gone: set<Uint64>): Lists
    requires a in lists
  {
    With(lists, a, lists[a].(items := lists[a].items - gone))
  }

  lemma QueuedList(p: Lists, q: Lists, all: Lookup, a: Address)
    requires Inv(p, q, all, {}) && a in q
    ensures GoodList(q[a], a, false) && q[a].items != map[]
  {
  }

  lemma QueuedLists(p: Lists, q: Lists, all: Lookup)
    requires Inv(p, q, all, {})
    ensures forall a | a in q :: q[a].items != map[]
  {
  }

  lemma QueueSound(p: Lists, q: Lists, all: Lookup)
    requires Inv(p, q, all, {})
    ensures Sound(q, false)
  {
  }

  lemma PendingSound(p: Lists, q: Lists, all: Lookup)
    requires Inv(p, q, all, {})
    ensures Sound(p, true)
  {
  }

  lemma NothingGone(lists: Lists, a: Address, txs: seq<Tx>)
    requires a in lists && lists[a].items != map[]
    ensures Reduced(lists, a, NoncesOf(txs[..0])) == lists
    ensures Reduced(lists, a, NoncesOf(txs[|txs|..])) == lists
  {
    assert txs[..0] == [] && txs[|txs|..] == [];
    assert NoncesOf([]) == {};
    assert lists[a].items - {} == lists[a].items;
  }

  lemma ReducedStep(lists: Lists, a: Address, gone: set<Uint64>, tx: Tx)
    requires a in lists && GoodList(lists[a], a, false) && Holds(lists[a].items, tx) && tx.nonce !in gone
    ensures In(Reduced(lists, a, gone), tx)
    ensures Without(Reduced(lists, a, gone), tx) == Reduced(lists, a, gone + {tx.nonce})
  {
    var l := lists[a].(items := lists[a].items - gone);
    assert tx.nonce in l.items;
    assert l.items - {tx.nonce} == lists[a].items - (gone + {tx.nonce});
    assert lists[a := l] - {a} == lists - {a};
  }

  lemma HeadStep(lists: Lists, a: Address, txs: seq<Tx>, i: nat)
    requires a in lists && GoodList(lists[a], a, false) && Listing(txs, lists[a].items) && i < |txs|
    ensures In(Reduced(lists, a, NoncesOf(txs[..i])), txs[i])
    ensures Without(Reduced(lists, a, NoncesOf(txs[..i])), txs[i]) == Reduced(lists, a, NoncesOf(txs[..i + 1]))
  {
    Members(txs, lists[a].items);
    assert txs[..i + 1] == txs[..i] + [txs[i]];
    assert NoncesOf(txs[..i + 1]) == NoncesOf(txs[..i]) + {txs[i].nonce};
    ReducedStep(lists, a, NoncesOf(txs[..i]), txs[i]);
  }

  lemma LastStep(lists: Lists, a: Address, txs: seq<Tx>, i: nat)
    requires a in lists && GoodList(lists[a], a, false) && Listing(txs, lists[a].items) && i < |txs|
    ensures In(Reduced(lists, a, NoncesOf(txs[i + 1..])), txs[i])
    ensures Without(Reduced(lists, a, NoncesOf(txs[i + 1..])), txs[i]) == Reduced(lists, a, NoncesOf(txs[i..]))
  {
    Members(txs, lists[a].items);
    assert txs[i..] == [txs[i]] + txs[i + 1..];
    assert NoncesOf(txs[i..]) == NoncesOf(txs[i + 1..]) + {txs[i].nonce};
    ReducedStep(lists, a, NoncesOf(txs[i + 1..]), txs[i]);
  }

  lemma AllGone(lists: Lists, a: Address, txs: seq<Tx>)
    requires a in lists && Keyed(lists[a].items) && Listing(txs, lists[a].items)
    ensures Reduced(lists, a, NoncesOf(txs[..|txs|])) == lists - {a}
  {
    assert txs[..|txs|] == txs;
    forall n | n in lists[a].items
      ensures n in NoncesOf(txs)
    {
      assert Holds(lists[a].items, lists[a].items[n]);
    }
    assert lists[a].items - NoncesOf(txs) == map[];
  }

  lemma LowestWithin(items: Items, k: nat)
    ensures Lowest(items, k).Keys <= items.Keys && Lowest(items, k) == items - (items.Keys - Lowest(items, k).Keys)
  {
  }

  lemma TailGone(lists: Lists, a: Address, txs: seq<Tx>, i: nat)
    requires a in lists && Keyed(lists[a].items) && Listing(txs, lists[a].items) && 0 < i <= |txs|
    ensures Reduced(lists, a, NoncesOf(txs[i..])) == lists[a := lists[a].Cap(i)]
  {
    hide Lowest, Listing;
    var items := lists[a].items;
    var high := items - Lowest(items, i).Keys;
    LowestWithin(items, i);
    ListingTake(txs, items, i);
    NoncesListed(txs[i..], high);
    assert NoncesOf(txs[i..]) == items.Keys - Lowest(items, i).Keys;
  }

  function NonLocal(lists: Lists, locals: set<Address>): set<Address> {
    set a | a in lists && a !in locals
  }

  function Beat(beats: map<Address, int>, a: Address): int {
    if a in beats then beats[a] else 0
  }

  lemma BeatNow(beats: map<Address, int>, a: Address, now: int)
    ensures forall b :: Beat(beats[a := now], b) == if b == a then now else Beat(beats, b)
  {
    forall b
      ensures Beat(beats[a := now], b) == if b == a then now else Beat(beats, b)
    {
    }
  }

  function BeatOf(beats: map<Address, int>): Address -> int {
    (a: Address) => Beat(beats, a)
  }

  lemma OnceEachAddress(s: seq<Address>, keys: set<Address>)
    requires multiset(s) == multiset(keys)
    ensures forall a :: a in s <==> a in keys
    ensures forall i, j :: 0 <= i < j < |s| ==> s[i] != s[j]
  {
    forall a
      ensures a in s <==> a in keys
    {
      assert a in s <==> a in multiset(s);
    }
    forall i, j | 0 <= i < j < |s|
      ensures s[i] != s[j]
    {
      if s[i] == s[j] {
        CountTwice(s, i, j);
        assert false;
      }
    }
  }

  /** The queue after an account lost its `drop` highest nonces, or everything if it has no more. */
  function CutFirst(q: Lists, a: Address, drop: nat): Lists
    requires a in q
  {
    if |q[a].items| <= drop then q - {a} else q[a := q[a].Cap(|q[a].items| - drop)]
  }

  lemma CutTotal(q: Lists, a: Address, drop: nat)
    requires a in q && Keyed(q[a].items)
    ensures |q[a].items| <= drop ==> Total(CutFirst(q, a, drop)) == Total(q) - |q[a].items|
    ensures |q[a].items| > drop ==> Total(CutFirst(q, a, drop)) == Total(q) - drop
  {
    if |q[a].items| <= drop {
      TotalDrop(q, a);
    } else {
      LowestSize(q[a].items, |q[a].items| - drop);
      TotalSet(q, a, q[a].Cap(|q[a].items| - drop));
    }
  }

  /**
   Accounts from position `n` on have been dropped, except that the one at `n` may be cut once nothing is
   left to drop.
   */
  ghost predicate CutFrom(q0: Lists, locals: set<Address>, addresses: seq<Address>, n: nat, drop: nat, q: Lists)
  {
    && n <= |addresses|
    && (forall i, j :: 0 <= i < j < |addresses| ==> addresses[i] != addresses[j])
    && (forall a :: a in addresses <==> a in q0 && a !in locals)
    && (forall a | a in q :: a in q0)
    && (forall a | a in q0 && (a in locals || a in addresses[..n]) :: a in q && q[a] == q0[a])
    && (forall k | n <= k < |addresses| && addresses[k] in q ::
          k == n && drop == 0 && exists m: nat :: q[addresses[k]] == q0[addresses[k]].Cap(m))
  }

  lemma NothingCut(q: Lists, locals: set<Address>, addresses: seq<Address>, drop: nat)
    requires forall i, j :: 0 <= i < j < |addresses| ==> addresses[i] != addresses[j]
    requires forall a :: a in addresses <==> a in q && a !in locals
    ensures CutFrom(q, locals, addresses, |addresses|, drop, q)
  {
  }

  lemma CutStep(q0: Lists, locals: set<Address>, addresses: seq<Address>, n: nat, drop: nat, q: Lists)
    requires n < |addresses| && drop > 0 && CutFrom(q0, locals, addresses, n + 1, drop, q)
    ensures addresses[n] in q
    ensures |q[addresses[n]].items| <= drop ==>
              CutFrom(q0, locals, addresses, n, drop - |q[addresses[n]].items|, CutFirst(q, addresses[n], drop))
    ensures |q[addresses[n]].items| > drop ==> CutFrom(q0, locals, addresses, n, 0, CutFirst(q, addresses[n], drop))
  {
    assert addresses[..n + 1] == addresses[..n] + [addresses[n]];
    assert addresses[n] in addresses[..n + 1];
  }

  /** Locals keep everything; others keep a prefix; a cut account means every account with a later heartbeat is gone. */
  ghost predicate QueueCut(q0: Lists, beats: map<Address, int>, locals: set<Address>, q: Lists) {
    && (forall a | a in q0 && a in locals :: a in q && q[a] == q0[a])
    && (forall a | a in q :: a in q0 && (q[a] == q0[a] || exists m: nat :: q[a] == q0[a].Cap(m)))
    && (forall a, b | a in q0 && b in q0 && a !in locals && b !in locals && (a !in q || q[a] != q0[a]) &&
                      Beat(beats, b) > Beat(beats, a) :: b !in q)
    && (forall a, b | a in q && b in q && q[a] != q0[a] && q[b] != q0[b] :: a == b)
  }

  lemma KeptOrCut(q0: Lists, locals: set<Address>, addresses: seq<Address>, n: nat, drop: nat, q: Lists, a: Address)
    requires CutFrom(q0, locals, addresses, n, drop, q) && a in q
    ensures a in q0
    ensures q[a] == q0[a] || exists m: nat :: q[a] == q0[a].Cap(m)
    ensures q[a] == q0[a] || (n < |addresses| && a == addresses[n])
    ensures drop > 0 && n == 0 ==> a in locals
  {
    if a !in locals {
      assert a in addresses;
      var k :| 0 <= k < |addresses| && addresses[k] == a;
      assert k < n ==> addresses[..n][k] == a;
    }
  }

  lemma LaterGone(q0: Lists, beats: map<Address, int>, locals: set<Address>, addresses: seq<Address>, n: nat,
                  drop: nat, q: Lists, a: Address, b: Address)
    requires CutFrom(q0, locals, addresses, n, drop, q)
    requires forall i, j :: 0 <= i < j < |addresses| ==> Beat(beats, addresses[i]) <= Beat(beats, addresses[j])
    requires a in q0 && b in q0 && a !in locals && b !in locals && (a !in q || q[a] != q0[a]) &&
             Beat(beats, b) > Beat(beats, a)
    ensures b !in q
  {
    assert a in addresses && b in addresses;
    var i :| 0 <= i < |addresses| && addresses[i] == a;
    var j :| 0 <= j < |addresses| && addresses[j] == b;
  }

  lemma CutMeaning(q0: Lists, beats: map<Address, int>, locals: set<Address>, addresses: seq<Address>, n: nat,
                   drop: nat, q: Lists)
    requires CutFrom(q0, locals, addresses, n, drop, q)
    requires forall i, j :: 0 <= i < j < |addresses| ==> Beat(beats, addresses[i]) <= Beat(beats, addresses[j])
    ensures QueueCut(q0, beats, locals, q)
    ensures drop > 0 && n == 0 ==> forall a | a in q :: a in locals
  {
    forall a | a in q
      ensures a in q0 && (q[a] == q0[a] || exists m: nat :: q[a] == q0[a].Cap(m))
      ensures drop > 0 && n == 0 ==> a in locals
    {
      KeptOrCut(q0, locals, addresses, n, drop, q, a);
    }
    forall a, b | a in q0 && b in q0 && a !in locals && b !in locals && (a !in q || q[a] != q0[a]) &&
                  Beat(beats, b) > Beat(beats, a)
      ensures b !in q
    {
      LaterGone(q0, beats, locals, addresses, n, drop, q, a, b);
    }
    forall a, b | a in q && b in q && q[a] != q0[a] && q[b] != q0[b]
      ensures a == b
    {
      KeptOrCut(q0, locals, addresses, n, drop, q, a);
      KeptOrCut(q0, locals, addresses, n, drop, q, b);
    }
  }

  // ---------- the documented order ----------

  /** An account that lost queued transactions. */
  ghost predicate Hit(q0: Lists, q: Lists, a: Address) {
    a in q0 && (a !in q || q[a] != q0[a])
  }

  /**
   What truncateQueue is documented to do: a remote account loses something only after all that were heard
   of earlier.
   */
  ghost predicate OldestFirst(q0: Lists, beats: map<Address, int>, locals: set<Address>, q: Lists) {
    forall a, b | Hit(q0, q, a) && b in q0 && a !in locals && b !in locals && Beat(beats, b) < Beat(beats, a) :: b !in q
  }

  /** All remote accounts were last heard of at the same time. */
  ghost predicate OneBeat(q: Lists, beats: map<Address, int>, locals: set<Address>) {
    forall a, b | a in q && b in q && a !in locals && b !in locals :: Beat(beats, a) == Beat(beats, b)
  }

  /** The number of queued transactions of local accounts. */
  ghost function LocalTotal(q: Lists, locals: set<Address>): int {
    Sum(q.Keys * locals, LenOf(q))
  }

  lemma {:induction false} RemoteShare(q: Lists, remote: set<Address>)
    requires remote <= q.Keys && forall a | a in q :: q[a].items != map[]
    ensures Sum(remote, LenOf(q)) >= |remote|
    ensures remote == {} ==> Sum(remote, LenOf(q)) == 0
    decreases |remote|
  {
    if remote != {} {
      var a :| a in remote;
      SumTake(remote, LenOf(q), a);
      RemoteShare(q, remote - {a});
      assert |q[a].items| > 0;
    }
  }

  /** Whether only local accounts are left, by their share of the queue. */
  lemma LocalShare(q: Lists, locals: set<Address>)
    requires forall a | a in q :: q[a].items != map[]
    ensures LocalTotal(q, locals) <= Total(q)
    ensures LocalTotal(q, locals) == Total(q) <==> forall a | a in q :: a in locals
  {
    var remote := q.Keys - locals;
    SumMinus(q.Keys, LenOf(q), remote);
    assert q.Keys - remote == q.Keys * locals;
    RemoteShare(q, remote);
    assert remote == {} <==> forall a | a in q :: a in locals;
  }

  /** With a hit account and a remote one left, both orders together allow only one heartbeat. */
  lemma MiddleBeat(q0: Lists, beats: map<Address, int>, locals: set<Address>, q: Lists, c: Address, h: Address)
    requires QueueCut(q0, beats, locals, q) && OldestFirst(q0, beats, locals, q)
    requires c in q && c !in locals && Hit(q0, q, h) && h !in locals
    ensures OneBeat(q0, beats, locals)
  {
    forall z | z in q0 && z !in locals
      ensures Beat(beats, z) == Beat(beats, c)
    {
      assert Beat(beats, h) == Beat(beats, c);
      if Beat(beats, z) != Beat(beats, c) {
        assert Hit(q0, q, z);
        assert false;
      }
    }
  }

  lemma SameLocals(q0: Lists, beats: map<Address, int>, locals: set<Address>, q: Lists)
    requires QueueCut(q0, beats, locals, q)
    ensures LocalTotal(q, locals) == LocalTotal(q0, locals)
  {
    assert q.Keys * locals == q0.Keys * locals;
    SumSame(q.Keys * locals, LenOf(q), LenOf(q0));
  }

  lemma NobodyHit(q0: Lists, q: Lists)
    requires q.Keys <= q0.Keys && forall a | a in q0 :: !Hit(q0, q, a)
    ensures q == q0
  {
  }

  /** A cut that made the queue smaller hit some remote account. */
  lemma SomeHit(q0: Lists, beats: map<Address, int>, locals: set<Address>, q: Lists) returns (h: Address)
    requires QueueCut(q0, beats, locals, q) && q != q0
    ensures Hit(q0, q, h) && h !in locals
  {
    if forall a | a in q0 :: !Hit(q0, q, a) {
      NobodyHit(q0, q);
    }
    h :| Hit(q0, q, h);
  }

  /**
   The documented order against the order of the code: on a queue over its limit the cut is
   oldest-first exactly if all remote accounts have one heartbeat, or the local accounts alone fill the queue.
   */
  lemma OldestFirstExactly(q0: Lists, beats: map<Address, int>, locals: set<Address>, limit: nat, q: Lists)
    requires QueueCut(q0, beats, locals, q) && Total(q0) > limit
    requires Total(q) == limit || (Total(q) > limit && forall a | a in q :: a in locals)
    requires forall a | a in q :: q[a].items != map[]
    ensures OldestFirst(q0, beats, locals, q) <==> OneBeat(q0, beats, locals) || LocalTotal(q0, locals) >= limit
  {
    hide Total, LocalTotal;
    LocalShare(q, locals);
    SameLocals(q0, beats, locals, q);
    if LocalTotal(q0, locals) < limit {
      var c :| c in q && c !in locals;
      var h := SomeHit(q0, beats, locals, q);
      if OldestFirst(q0, beats, locals, q) {
        MiddleBeat(q0, beats, locals, q, c, h);
      }
    }
  }

  lemma TwoLists(q0: Lists, a: Address, b: Address)
    requires a != b && q0.Keys == {a, b}
    ensures Total(q0) == |q0[a].items| + |q0[b].items|
  {
    SumTake(q0.Keys, LenOf(q0), a);
    SumTake(q0.Keys - {a}, LenOf(q0), b);
    assert q0.Keys - {a} - {b} == {};
  }

  lemma OneEntry(items: Items, m: nat)
    requires |items| == 1 && Lowest(items, m) != map[]
    ensures Lowest(items, m) == items
  {
    var n :| n in Lowest(items, m);
    assert items.Keys == {n} by {
      assert items.Keys - {n} == {} by {
        assert |items.Keys - {n}| == 0;
      }
    }
  }

  lemma OnlyOne(q0: Lists, q: Lists, a: Address, b: Address)
    requires a != b && q0.Keys == {a, b} && a in q && q.Keys <= q0.Keys && Total(q) == 1
    requires forall x | x in q :: q[x].items != map[]
    requires |q0[a].items| == 1 && (q[a] == q0[a] || exists m: nat :: q[a] == q0[a].Cap(m))
    ensures b !in q && q[a] == q0[a]
  {
    if b in q {
      assert q.Keys == {a, b} && |q[a].items| >= 1 && |q[b].items| >= 1;
      TwoLists(q, a, b);
      assert false;
    }
    if q[a] != q0[a] {
      var m: nat :| q[a] == q0[a].Cap(m);
      OneEntry(q0[a].items, m);
    }
  }

  /** Two remote accounts with one queued transaction each and room for one: the older account is the one that stays. */
  lemma NewestGoesFirst(q0: Lists, q: Lists, early: Address, late: Address)
    requires early != late && q0.Keys == {early, late} && |q0[early].items| == 1 && |q0[late].items| == 1
    requires QueueCut(q0, map[early := 1, late := 2], {}, q) && Total(q) == 1
    requires forall a | a in q :: q[a].items != map[]
    ensures early in q && q[early] == q0[early] && late !in q
    ensures !OldestFirst(q0, map[early := 1, late := 2], {}, q)
  {
    var beats := map[early := 1, late := 2];
    hide Total;
    TwoLists(q0, early, late);
    OldestFirstExactly(q0, beats, {}, 1, q);
    assert Beat(beats, early) == 1 && Beat(beats, late) == 2;
    assert q0.Keys * {} == {};
    assert !OldestFirst(q0, beats, {}, q);
    var a, b :| Hit(q0, q, a) && b in q0 && Beat(beats, b) < Beat(beats, a) && b in q;
    assert a == late && b == early;
    OnlyOne(q0, q, early, late);
  }

  lemma LimitsOnlyDrop(p: Lists, q: Lists, all: Lookup, p': Lists, q': Lists, all': Lookup, locals: set<Address>,
                       slots: nat, beats: map<Address, int>)
    requires Inv(p, q, all, {}) && Inv(p', q', all', {})
    requires Levelled(p, locals, slots, p') && (q' == q || QueueCut(q, beats, locals, q'))
    ensures forall t :: Live(all', t) ==> Live(all, t)
  {
    forall t | Live(all', t)
      ensures Live(all, t)
    {
      assert In(p', t) ==> In(p, t);
      assert In(q', t) ==> In(q, t);
    }
  }

  /** What the limits cost the pool: remote transactions only, of accounts that keep their slots or of a full queue. */
  lemma LimitsLeave(p: Lists, q: Lists, all: Lookup, p': Lists, q': Lists, all': Lookup, locals: set<Address>,
                    slots: nat, beats: map<Address, int>, d: Tx)
    requires Inv(p, q, all, {}) && Inv(p', q', all', {}) && Live(all, d) && !Live(all', d)
    requires Levelled(p, locals, slots, p') && (q' == q || QueueCut(q, beats, locals, q'))
    ensures d.from !in locals && (Len(p', d.from) >= slots || q' != q)
  {
    hide Lowest;
    if In(p, d) {
      var level: nat :| slots <= level && p' == CapAll(p, locals, level);
      if d.from !in locals {
        OverLimit(p[d.from].items, level, d);
      }
    }
  }

  lemma LenGrows(q: Lists, q': Lists, a: Address)
    requires Sound(q, false) && Sound(q', false) && forall t :: In(q, t) ==> In(q', t)
    ensures Len(q, a) <= Len(q', a)
  {
    if a in q {
      forall n | n in q[a].items
        ensures a in q' && n in q'[a].items
      {
        assert In(q, q[a].items[n]);
      }
      assert q[a].items != map[];
      SubsetSize(q[a].items.Keys, q'[a].items.Keys);
    }
  }

  lemma QueueGrows(p: Lists, q: Lists, all: Lookup, p': Lists, q': Lists, all': Lookup, a: Address)
    requires Inv(p, q, all, {}) && Inv(p', q', all', {}) && forall t :: In(q, t) ==> In(q', t)
    ensures Len(q, a) <= Len(q', a)
  {
    LenGrows(q, q', a);
  }
}
