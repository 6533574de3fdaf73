/**
 What single steps of the pool do to its lists and its lookup, on plain maps: enqueuing, removing,
 promoting, demoting and replacing transactions keep the bookkeeping invariant.
 */
module PoolSteps {
  import opened Wrappers
  import opened Transactions
  import opened SortedMap
  import opened TxLists
  import opened PricedList
  import opened PoolState
  import opened Sums

  /** The account's later pending transactions, which lose their place when `tx` leaves. */
  ghost predicate Follows(lists: Lists, tx: Tx, t: Tx) {
    In(lists, t) && t.from == tx.from && t.nonce > tx.nonce
  }

  function Without(lists: Lists, tx: Tx): Lists {
    if tx.from in lists then With(lists, tx.from, lists[tx.from].Remove(tx.nonce)) else lists
  }

  lemma InvMeaning(p: Lists, q: Lists, all: Lookup)
    requires Inv(p, q, all, {})
    ensures forall t :: Live(all, t) <==> In(p, t) || In(q, t)
    ensures forall t :: !(In(p, t) && In(q, t))
    ensures forall a, n | a in p && a in q && n in p[a].items :: n !in q[a].items
    ensures forall a | a in p :: p[a].items != map[]
    ensures forall a | a in q :: q[a].items != map[]
  {
  }

  /** Removal goes by nonce: on a pending list the nonce of a pooled transaction can only be its own. */
  lemma PendingByNonce(p: Lists, q: Lists, all: Lookup, tx: Tx)
    requires Inv(p, q, all, {}) && Live(all, tx)
    ensures In(p, tx) || In(q, tx)
    ensures tx.from in p && tx.nonce in p[tx.from].items <==> In(p, tx)
  {
  }

  lemma SlotElsewhere(p: Lists, q: Lists, tx: Tx)
    requires Apart(p, q) && !NonceFree(p, tx)
    ensures NonceFree(q, tx)
  {
  }

  lemma OneInSlot(p: Lists, q: Lists, all: Lookup, tx: Tx)
    requires Inv(p, q, all, {})
    ensures Live(all, tx) ==> forall t :: Live(all, t) && SameSlot(t, tx) ==> t == tx
  {
    ApartFree(p, q);
  }

  lemma RejectKeepsInv(p: Lists, q: Lists, all: Lookup, transit: set<Tx>, tx: Tx)
    requires Inv(p, q, all, transit) && tx in transit
    ensures Live(all, tx) && Inv(p, q, all - {HashOf(tx)}, transit - {tx})
  {
    DropLive(all, {tx});
    assert HashSet({tx}) == {HashOf(tx)};
  }

  lemma OnPendingList(p: Lists, q: Lists, all: Lookup, tx: Tx)
    requires Inv(p, q, all, {}) && In(p, tx)
    ensures Sound(p, true) && tx.from in p && GoodList(p[tx.from], tx.from, true)
    ensures tx.nonce in p[tx.from].items && p[tx.from].items[tx.nonce] == tx
    ensures Without(p, tx) == With(p, tx.from, p[tx.from].Remove(tx.nonce))
  {
  }

  lemma FollowersMoved(p: Lists, tx: Tx)
    requires Sound(p, true) && In(p, tx)
    ensures forall t :: t in Txs(AtLeast(p[tx.from].items, tx.nonce + 1)) <==> Follows(p, tx, t)
  {
    var l := p[tx.from];
    var moved := AtLeast(l.items, tx.nonce + 1);
    TxsHold(moved);
    forall t
      ensures t in Txs(moved) <==> Follows(p, tx, t)
    {
      assert Holds(moved, t) ==> Holds(l.items, t) && l.items[t.nonce].from == tx.from;
    }
  }

  lemma HashSetOne(tx: Tx)
    ensures HashSet({tx}) == {HashOf(tx)}
  {
  }

  lemma RemovePending(p: Lists, q: Lists, all: Lookup, tx: Tx)
    requires Inv(p, q, all, {}) && In(p, tx)
    ensures Inv(Without(p, tx), q, all - {HashOf(tx)}, Txs(AtLeast(p[tx.from].items, tx.nonce + 1)))
    ensures forall t | t in Txs(AtLeast(p[tx.from].items, tx.nonce + 1)) :: NonceFree(Without(p, tx), t)
    ensures forall t :: t in Txs(AtLeast(p[tx.from].items, tx.nonce + 1)) <==> Follows(p, tx, t)
  {
    OnPendingList(p, q, all, tx);
    HashSetOne(tx);
    hide Inv, Sound, GoodList, Shrinks, AtLeast, Txs, Follows, NonceFree, In, HashSet, List.Remove, With, Without;
    var l := p[tx.from];
    var moved := AtLeast(l.items, tx.nonce + 1);
    RemoveShrinks(l, tx.from, true, tx.nonce);
    TakePending(p, q, all, tx.from, l.Remove(tx.nonce), {tx}, Txs(moved));
    FollowersMoved(p, tx);
  }

  lemma RemoveQueued(p: Lists, q: Lists, all: Lookup, tx: Tx)
    requires Inv(p, q, all, {}) && Live(all, tx)
    requires !(tx.from in p && tx.nonce in p[tx.from].items)
    ensures In(q, tx)
    ensures Inv(p, Without(q, tx), all - {HashOf(tx)}, {})
  {
    PendingByNonce(p, q, all, tx);
    RemoveShrinks(q[tx.from], tx.from, false, tx.nonce);
    TakeQueued(p, q, all, tx.from, q[tx.from].Remove(tx.nonce), {tx}, {});
    assert HashSet({tx}) == {HashOf(tx)};
  }

  lemma SameLive(x: Lookup, y: Lookup)
    requires Hashed(x) && Hashed(y) && forall t :: Live(x, t) <==> Live(y, t)
    ensures x == y
  {
    forall h: Hash
      ensures h in x <==> h in y
    {
      assert Live(x, h.preimage) <==> Live(y, h.preimage);
    }
  }

  lemma HashSetPlus(x: set<Tx>, y: set<Tx>)
    ensures HashSet(x + y) == HashSet(x) + HashSet(y)
  {
  }

  /** An account's list has an entry at a nonce. */
  predicate Taken(lists: Lists, a: Address, n: Uint64) {
    a in lists && n in lists[a].items
  }

  /** Lists that only lost transactions, and none of the accounts to keep. */
  ghost predicate Shrunk(p: Lists, p': Lists, keep: set<Address>) {
    && (forall t :: In(p', t) ==> In(p, t))
    && (forall a | a in keep :: Get(p', a, true) == Get(p, a, true))
  }

  lemma NothingShrunk(p: Lists, keep: set<Address>)
    ensures Shrunk(p, p, keep)
  {
  }

  lemma ShrunkTwice(p: Lists, p': Lists, p'': Lists, keep: set<Address>)
    requires Shrunk(p, p', keep) && Shrunk(p', p'', keep)
    ensures Shrunk(p, p'', keep)
  {
  }

  lemma WithSlots(p: Lists, a: Address, l: List)
    ensures forall b, n: Uint64 :: Taken(With(p, a, l), b, n) <==> if b == a then n in l.items else Taken(p, b, n)
    ensures forall b | b != a :: Get(With(p, a, l), b, true) == Get(p, b, true)
    ensures forall t: Tx | t.from != a :: In(With(p, a, l), t) <==> In(p, t)
    ensures forall t: Tx | t.from == a :: In(With(p, a, l), t) <==> Holds(l.items, t)
  {
  }

  lemma StrictRemove(l: List, nonce: Uint64)
    requires l.strict && nonce in l.items
    ensures forall n :: n in l.Remove(nonce).items <==> n in l.items && n < nonce
    ensures forall t :: Holds(l.Remove(nonce).items, t) ==> Holds(l.items, t)
  {
  }

  /** Taking a transaction off its pending list takes its slot and all later ones of the account. */
  lemma WithoutSlots(p: Lists, tx: Tx, p': Lists, keep: set<Address>)
    requires In(p, tx) && p[tx.from].strict && p' == Without(p, tx)
    ensures forall a, n: Uint64 :: Taken(p', a, n) <==> Taken(p, a, n) && (a != tx.from || n < tx.nonce)
    ensures tx.from !in keep ==> Shrunk(p, p', keep)
  {
    hide With, List.Remove;
    var l := p[tx.from].Remove(tx.nonce);
    StrictRemove(p[tx.from], tx.nonce);
    WithSlots(p, tx.from, l);
  }

  /** The heartbeats that remain when accounts lose their last pending transaction. */
  function Heard(beats: map<Address, int>, p: Lists, p': Lists): map<Address, int> {
    beats - (p.Keys - p'.Keys)
  }

  lemma HeardSame(beats: map<Address, int>, p: Lists)
    ensures Heard(beats, p, p) == beats
  {
    assert p.Keys - p.Keys == {};
  }

  lemma HeardTwice(beats: map<Address, int>, p: Lists, p': Lists, p'': Lists)
    requires p''.Keys <= p'.Keys <= p.Keys
    ensures Heard(Heard(beats, p, p'), p', p'') == Heard(beats, p, p'')
  {
    assert (p.Keys - p'.Keys) + (p'.Keys - p''.Keys) == p.Keys - p''.Keys;
  }

  lemma HeardWith(beats: map<Address, int>, p: Lists, a: Address, l: List)
    requires a in p
    ensures With(p, a, l).Keys <= p.Keys && (a in With(p, a, l) <==> l.items != map[])
    ensures Heard(beats, p, With(p, a, l)) == if l.items == map[] then beats - {a} else beats
  {
    assert p.Keys - With(p, a, l).Keys == if l.items == map[] then {a} else {};
  }

  lemma PutKeys(p: Lists, tx: Tx)
    ensures !NonceFree(p, tx) ==> Put(p, true, tx).Keys == p.Keys
  {
  }

  lemma NothingForgotten(all: Lookup)
    ensures all - HashSet({}) == all
  {
  }

  lemma LeaveInTwoSteps(all: Lookup, x: set<Tx>, y: set<Tx>)
    requires Hashed(all)
    ensures all - HashSet(x + y) == all - HashSet(x) - HashSet(y)
    ensures forall t :: Live(all - HashSet(x), t) <==> Live(all, t) && t !in x
    ensures forall t :: Live(all - HashSet(x) - HashSet(y), t) ==> Live(all, t)
  {
    HashSetPlus(x, y);
    DropLive(all, x);
  }

  /** A list after dropping what is outdated and what the account cannot pay. */
  function Affordable(l: List, nonce: Uint64, balance: int, maxGas: Uint64): List {
    l.Forward(nonce).Filter(balance, maxGas)
  }

  /** The transactions of a queued list that are executable now. */
  function Ready(l: List, nonce: Uint64, balance: int, maxGas: Uint64, start: Uint64): Items {
    ReadyRun(Affordable(l, nonce, balance, maxGas).items, start)
  }

  /** A queued list after the per-account limit, from which local accounts are exempt. */
  function Limited(l: List, local: bool, limit: nat): List {
    if local then l else l.Cap(limit)
  }

  lemma WithTwice(lists: Lists, a: Address, l: List, local: bool, k: nat)
    requires a in lists
    ensures var q := With(lists, a, l);
            (if a in q then With(q, a, Limited(q[a], local, k)) else q) == With(lists, a, Limited(l, local, k))
  {
    if l.items == map[] {
      assert Limited(l, local, k).items == map[];
    }
    assert lists - {a} - {a} == lists - {a};
  }

  lemma CapStage(p: Lists, q: Lists, all: Lookup, a: Address, k: nat, caps: set<Tx>)
    requires Inv(p, q, all, {}) && a in q && caps == Txs(q[a].items - Lowest(q[a].items, k).Keys)
    ensures Inv(p, With(q, a, q[a].Cap(k)), all - HashSet(caps), {})
    ensures forall t | t in caps :: Live(all, t)
    ensures forall t :: Live(all - HashSet(caps), t) ==> Live(all, t)
  {
    CapShrinks(q[a], a, false, k);
    TakeQueued(p, q, all, a, q[a].Cap(k), caps, {});
    ShrinkIn(q, false, a, q[a].Cap(k), caps, {});
    DropLive(all, caps);
  }

  /** What Forward drops is disjoint from what Filter drops afterwards. */
  lemma OutdatedAndUnaffordable(l: List, nonce: Uint64, balance: int, maxGas: Uint64)
    requires Keyed(l.items)
    ensures Txs(Below(l.items, nonce)) !! Txs(l.Forward(nonce).FilterDrops(balance, maxGas))
  {
  }

  /** The first stages of promoteExecutables keep the invariant, with the ready run in transit. */
  lemma PromoteStage(p: Lists, q: Lists, all: Lookup, a: Address, nonce: Uint64, balance: int, maxGas: Uint64,
                     start: Uint64)
    requires Inv(p, q, all, {}) && a in q
    ensures var l1 := q[a].Forward(nonce); var l2 := Affordable(q[a], nonce, balance, maxGas);
            var run := Ready(q[a], nonce, balance, maxGas, start);
            var x := Txs(Below(q[a].items, nonce)); var y := Txs(l1.FilterDrops(balance, maxGas));
            && Keyed(run) && Keyed(l2.Ready(start).items)
            && Inv(p, With(q, a, l2.Ready(start)), all - HashSet(x) - HashSet(y), Txs(run))
            && (forall t | t in x :: Live(all, t))
            && (forall t | t in y :: Live(all - HashSet(x), t))
            && (forall t :: Live(all - HashSet(x) - HashSet(y), t) ==> Live(all, t))
            && (forall t | Holds(run, t) :: NonceFree(p, t))
  {
    var l1 := q[a].Forward(nonce);
    var l2 := l1.Filter(balance, maxGas);
    var run := ReadyRun(l2.items, start);
    var x, y := Txs(Below(q[a].items, nonce)), Txs(l1.FilterDrops(balance, maxGas));
    PromoteShrinks(q[a], a, nonce, balance, maxGas, start);
    TakeQueued(p, q, all, a, l2.Ready(start), x + y, Txs(run));
    ShrinkIn(q, false, a, l2.Ready(start), x + y, Txs(run));
    LeaveInTwoSteps(all, x, y);
    ApartFree(p, q);
    TxsHold(run);
    OutdatedAndUnaffordable(q[a], nonce, balance, maxGas);
  }

  ghost function Upto(txs: seq<Tx>, i: nat): set<Tx>
    requires i <= |txs|
  {
    set t | t in txs[..i]
  }

  ghost function Rest(txs: seq<Tx>, i: nat): set<Tx>
    requires i <= |txs|
  {
    set t | t in txs[i..]
  }

  lemma RunEnds(txs: seq<Tx>, run: Items)
    requires Keyed(run) && Listing(txs, run)
    ensures Upto(txs, 0) == {} && Rest(txs, 0) == Txs(run) && Rest(txs, |txs|) == {}
    ensures forall t :: t in Upto(txs, |txs|) <==> t in txs
    ensures forall t :: t in Rest(txs, 0) <==> t in txs
  {
    TxsHold(run);
    assert txs[0..] == txs && txs[..|txs|] == txs;
  }

  lemma ListingHolds(txs: seq<Tx>, run: Items)
    requires Listing(txs, run)
    ensures forall t :: t in txs <==> Holds(run, t)
  {
  }

  lemma EmptyRun(txs: seq<Tx>, run: Items)
    requires Keyed(run) && Listing(txs, run)
    ensures txs == [] <==> run == map[]
  {
    if txs == [] && run != map[] {
      var n :| n in run;
      assert Holds(run, run[n]);
      assert false;
    }
    if txs != [] {
      assert txs[0] in txs;
    }
  }

  lemma RunTail(txs: seq<Tx>, i: nat, run: Items)
    requires Keyed(run) && Listing(txs, run) && i < |txs|
    ensures txs[i] in Rest(txs, i) && txs[i] in txs
    ensures Upto(txs, i + 1) == Upto(txs, i) + {txs[i]} && Rest(txs, i + 1) == Rest(txs, i) - {txs[i]}
    ensures forall t | t in Rest(txs, i + 1) :: !SameSlot(t, txs[i])
  {
    assert txs[i..] == [txs[i]] + txs[i + 1..] && txs[..i + 1] == txs[..i] + [txs[i]];
    forall t | t in txs[i + 1..]
      ensures !SameSlot(t, txs[i])
    {
      var j :| i < j < |txs| && txs[j] == t;
    }
  }

  /** A transaction in transit whose nonce is free is promoted without displacing anything. */
  lemma ReadyPromotes(p: Lists, q: Lists, all: Lookup, transit: set<Tx>, tx: Tx, bump: nat)
    requires Inv(p, q, all, transit) && tx in transit && NonceFree(p, tx)
    ensures NonceFree(q, tx) && Get(p, tx.from, true).Accepts(tx, bump) && Swapped(all, p, tx) == all
    ensures forall t :: In(Put(p, true, tx), t) <==> In(p, t) || t == tx
    ensures forall t :: NonceFree(p, t) && !SameSlot(t, tx) ==> NonceFree(Put(p, true, tx), t)
  {
    PutIn(p, true, tx);
  }

  lemma AffordableItems(l: List, a: Address, strict: bool, nonce: Uint64, balance: int, maxGas: Uint64)
    requires GoodList(l, a, strict)
    ensures forall n | n in Affordable(l, nonce, balance, maxGas).items ::
              n >= nonce && !TooDear(balance, maxGas)(Affordable(l, nonce, balance, maxGas).items[n])
    ensures forall t | t in Txs(Below(l.items, nonce)) :: t.nonce < nonce && t.from == a
    ensures forall t | t in Txs(l.Forward(nonce).FilterDrops(balance, maxGas)) ::
              TooDear(balance, maxGas)(t) && t.from == a
  {
    ForwardGood(l, a, strict, nonce);
    FilterGood(l.Forward(nonce), a, strict, balance, maxGas);
    ShortCircuitExact(l.Forward(nonce), balance, maxGas);
  }

  /** What leaves a pending list for the queue: cut off behind a drop, or behind a missing first nonce. */
  function Demoted(l: List, nonce: Uint64, balance: int, maxGas: Uint64): set<Tx> {
    Txs(l.Forward(nonce).FilterInvalids(balance, maxGas))
    + Txs(Affordable(l, nonce, balance, maxGas).items - Executable(l, nonce, balance, maxGas).items.Keys)
  }

  lemma DemoteStage(p: Lists, q: Lists, all: Lookup, a: Address, nonce: Uint64, balance: int, maxGas: Uint64)
    requires Inv(p, q, all, {}) && a in p
    ensures var x := Txs(Below(p[a].items, nonce)); var y := Txs(p[a].Forward(nonce).FilterDrops(balance, maxGas));
            var p' := With(p, a, Executable(p[a], nonce, balance, maxGas));
            var demoted := Demoted(p[a], nonce, balance, maxGas);
            && Inv(p', q, all - HashSet(x) - HashSet(y), demoted)
            && (forall t | t in x :: Live(all, t))
            && (forall t | t in y :: Live(all - HashSet(x), t))
            && (forall t :: Live(all - HashSet(x) - HashSet(y), t) ==> Live(all, t))
            && (forall t | t in demoted :: NonceFree(p', t))
  {
    var x, y := Txs(Below(p[a].items, nonce)), Txs(p[a].Forward(nonce).FilterDrops(balance, maxGas));
    var l3 := Executable(p[a], nonce, balance, maxGas);
    var demoted := Demoted(p[a], nonce, balance, maxGas);
    DemoteShrinks(p[a], a, nonce, balance, maxGas);
    TakePending(p, q, all, a, l3, x + y, demoted);
    ShrinkIn(p, true, a, l3, x + y, demoted);
    LeaveInTwoSteps(all, x, y);
    OutdatedAndUnaffordable(p[a], nonce, balance, maxGas);
  }

  /** A pending list fit for execution: gap-free at the front, current, affordable. */
  ghost predicate Runnable(l: List, nonce: Uint64, balance: int, maxGas: Uint64) {
    && nonce in l.items
    && forall n | n in l.items :: n >= nonce && !TooDear(balance, maxGas)(l.items[n])
  }

  /** What stays pending is the executable part; what goes back to the queue was pending. */
  lemma DemoteParts(p: Lists, q: Lists, all: Lookup, a: Address, nonce: Uint64, balance: int, maxGas: Uint64)
    requires Inv(p, q, all, {}) && a in p
    ensures var l := Executable(p[a], nonce, balance, maxGas); var p' := With(p, a, l);
            var gone := Txs(Below(p[a].items, nonce)) + Txs(p[a].Forward(nonce).FilterDrops(balance, maxGas));
            var demoted := Demoted(p[a], nonce, balance, maxGas);
            && (forall t :: In(p', t) <==> if t.from == a then Holds(l.items, t) else In(p, t))
            && (forall t :: In(p', t) <==> In(p, t) && t !in gone && t !in demoted)
            && (forall t | t in demoted :: In(p, t) && t.from == a)
  {
    var l := Executable(p[a], nonce, balance, maxGas);
    var gone := Txs(Below(p[a].items, nonce)) + Txs(p[a].Forward(nonce).FilterDrops(balance, maxGas));
    var demoted := Demoted(p[a], nonce, balance, maxGas);
    DemoteShrinks(p[a], a, nonce, balance, maxGas);
    hide Executable, Below, List.Forward, List.FilterDrops, Txs, Demoted, GoodList;
    ShrinkIn(p, true, a, l, gone, demoted);
    WithIn(p, true, a, l);
    forall t | t in demoted
      ensures t.from == a
    {
      assert Holds(p[a].items, t);
      Owned(p[a], a, true, t);
    }
  }

  lemma Owned(l: List, a: Address, strict: bool, t: Tx)
    requires GoodList(l, a, strict) && Holds(l.items, t)
    ensures t.from == a
  {
  }

  lemma PendingList(p: Lists, q: Lists, all: Lookup, a: Address)
    requires Inv(p, q, all, {}) && a in p
    ensures GoodList(p[a], a, true)
  {
  }

  lemma DemoteMeaning(p: Lists, q: Lists, all: Lookup, a: Address, nonce: Uint64, balance: int, maxGas: Uint64)
    requires Inv(p, q, all, {}) && a in p
    ensures var l := Executable(p[a], nonce, balance, maxGas); var p' := With(p, a, l);
            var demoted := Demoted(p[a], nonce, balance, maxGas);
            && (a in p' ==> Runnable(p'[a], nonce, balance, maxGas))
            && (forall t :: In(p', t) <==> In(p, t) && (t.from == a ==> Holds(l.items, t)))
            && (forall t | t in demoted :: In(p, t) && t.from == a)
            && (forall b | b != a :: b in p' <==> b in p)
            && (forall b | b != a && b in p' :: p'[b] == p[b])
            && (forall t :: In(p, t) && !In(p', t) && t !in demoted ==>
                  t.from == a && (t.nonce < nonce || TooDear(balance, maxGas)(t)))
  {
    hide Inv, Executable, Below, List.Forward, List.FilterDrops, Txs, Demoted, GoodList, Affordable, Runnable,
      TooDear, In;
    PendingList(p, q, all, a);
    DemoteParts(p, q, all, a, nonce, balance, maxGas);
    AffordableItems(p[a], a, true, nonce, balance, maxGas);
    ExecutableRuns(p[a], a, nonce, balance, maxGas);
  }

  lemma ExecutableRuns(l: List, a: Address, nonce: Uint64, balance: int, maxGas: Uint64)
    requires GoodList(l, a, true)
    ensures Executable(l, nonce, balance, maxGas).items != map[] ==>
              Runnable(Executable(l, nonce, balance, maxGas), nonce, balance, maxGas)
  {
    AffordableItems(l, a, true, nonce, balance, maxGas);
    hide TooDear;
  }

  /** What eviction promises about a dropped transaction: it is remote, and no remote that stays goes before it. */
  ghost predicate Evicted(d: Tx, all: Lookup, locals: set<Address>) {
    d.from !in locals && forall r :: Live(all, r) && r.from !in locals ==> NoBetter(d, r)
  }

  ghost predicate EvictedFor(d: Tx, all: Lookup, locals: set<Address>, tx: Tx) {
    d.from !in locals && forall r :: Live(all, r) && r != tx && r.from !in locals ==> NoBetter(d, r)
  }

  ghost function Slots(all: Lookup): int {
    Sum(all.Keys, HashSlots)
  }

  /** Room was made for `tx`: by evicting cheap remotes, of which the last one was still needed. */
  ghost predicate Cleared(before: Lookup, after: Lookup, tx: Tx, locals: set<Address>, limit: int) {
    && (forall t :: Live(after, t) ==> Live(before, t))
    && (forall d :: Live(before, d) && !Live(after, d) ==> Evicted(d, after, locals))
    && (forall d :: Live(before, d) && !Live(after, d) ==>
          exists e :: Live(before, e) && !Live(after, e) && Slots(after) + tx.NumSlots() + e.NumSlots() > limit)
  }

  /** Whoever holds the slot of `tx` is outbid by it. */
  ghost predicate OutbidsSlot(all: Lookup, tx: Tx, bump: nat) {
    forall t :: Live(all, t) && SameSlot(t, tx) ==> Outbids(tx, t, bump)
  }

  /** Another transaction holds the slot of `tx` and is not outbid. */
  ghost predicate SlotTaken(all: Lookup, tx: Tx, bump: nat) {
    exists t :: Live(all, t) && SameSlot(t, tx) && t != tx && !Outbids(tx, t, bump)
  }

  /** Only the slot of `tx` changes: a refused one leaves the lookup alone, an accepted one takes its slot over. */
  ghost predicate Placed(before: Lookup, after: Lookup, tx: Tx, accepted: bool) {
    if !accepted then after == before
    else forall t :: Live(after, t) <==> t == tx || (Live(before, t) && !SameSlot(t, tx))
  }

  /** The list that decides about a transaction: pending if it holds the slot, else the queue. */
  function SlotList(p: Lists, q: Lists, tx: Tx): Lists {
    if NonceFree(p, tx) then q else p
  }

  /** A new transaction is on the queue afterwards exactly if pending does not hold its slot. */
  lemma PlacedWhere(p: Lists, q: Lists, all: Lookup, tx: Tx)
    requires Inv(p, q, all, {}) && !Live(all, tx)
    ensures !In(q, tx) && In(Put(q, false, tx), tx)
  {
  }

  lemma PlacedIn(p: Lists, q: Lists, all: Lookup, tx: Tx, bump: nat)
    requires Inv(p, q, all, {}) && !Live(all, tx)
    ensures var lists := SlotList(p, q, tx);
            && Placed(all, Swapped(all, lists, tx), tx, true)
            && (Get(lists, tx.from, !NonceFree(p, tx)).Accepts(tx, bump) <==> OutbidsSlot(all, tx, bump))
            && (!NonceFree(lists, tx) <==> exists t :: Live(all, t) && SameSlot(t, tx))
  {
    hide Outbids;
    var lists := SlotList(p, q, tx);
    SwappedLive(all, lists, tx, !NonceFree(p, tx));
    SlotHolder(p, q, all, tx);
  }

  lemma SlotHolder(p: Lists, q: Lists, all: Lookup, tx: Tx)
    requires Inv(p, q, all, {})
    ensures var lists := SlotList(p, q, tx);
            && (NonceFree(lists, tx) ==> forall t :: Live(all, t) ==> !SameSlot(t, tx))
            && (!NonceFree(lists, tx) ==>
                  var prior := lists[tx.from].items[tx.nonce];
                  && In(lists, prior) && SameSlot(prior, tx)
                  && forall t :: Live(all, t) && SameSlot(t, tx) <==> t == prior)
  {
    ApartFree(p, q);
    var lists := SlotList(p, q, tx);
    if !NonceFree(lists, tx) {
      var prior := lists[tx.from].items[tx.nonce];
      assert In(lists, prior) && Live(all, prior);
      OneInSlot(p, q, all, prior);
    }
  }

  /** A placed transaction takes at most its own slots. */
  lemma SwappedSlots(all: Lookup, lists: Lists, tx: Tx)
    ensures Sum(Swapped(all, lists, tx).Keys, HashSlots) <= Sum(all.Keys, HashSlots) + tx.NumSlots()
  {
    var prior := Prior(lists, tx);
    var kept := if prior.Some? then all - {HashOf(prior.value)} else all;
    if prior.Some? && HashOf(prior.value) in all {
      SumTake(all.Keys, HashSlots, HashOf(prior.value));
      assert kept.Keys == all.Keys - {HashOf(prior.value)};
    } else {
      assert kept == all;
    }
    if HashOf(tx) !in kept {
      SumPut(kept.Keys, HashSlots, HashOf(tx));
      assert kept[HashOf(tx) := tx].Keys == kept.Keys + {HashOf(tx)};
    }
  }

  /** What placing a transaction means for a pool from which room may have been made before. */
  /** Removing transactions frees their slots. */
  lemma RoomMade(all: Lookup, drop: seq<Tx>)
    requires forall t :: t in drop ==> Live(all, t)
    ensures Sum((all - HashesOf(drop)).Keys, HashSlots) == Sum(all.Keys, HashSlots) - Freed(drop)
  {
    SumMinus(all.Keys, HashSlots, HashesOf(drop));
    assert (all - HashesOf(drop)).Keys == all.Keys - HashesOf(drop);
  }

  lemma HashesLive(all: Lookup, drop: seq<Tx>)
    ensures forall t :: Live(all - HashesOf(drop), t) <==> Live(all, t) && t !in drop
  {
  }

  lemma NothingHashed(all: Lookup)
    ensures all - HashesOf([]) == all
  {
    assert HashesOf([]) == {};
  }

  /** After the removal of `drop[i]` the heap need only miss the later ones. */
  lemma NowOut(items: seq<Tx>, all: Lookup, drop: seq<Tx>, i: nat)
    requires i < |drop| && CoversAllBut(items, all, drop[i..]) && !Live(all, drop[i])
    ensures CoversAllBut(items, all, drop[i + 1..])
  {
    assert drop[i..] == [drop[i]] + drop[i + 1..];
  }

  lemma HashesStep(all: Lookup, drop: seq<Tx>, i: nat)
    requires i < |drop|
    ensures all - HashesOf(drop[..i]) - {HashOf(drop[i])} == all - HashesOf(drop[..i + 1])
  {
    assert drop[..i + 1] == drop[..i] + [drop[i]];
    assert HashesOf(drop[..i + 1]) == HashesOf(drop[..i]) + {HashOf(drop[i])};
  }

  /** Room was made for `tx`, and then it was placed or refused. */
  ghost predicate ClearedAndPlaced(before: Lookup, after: Lookup, tx: Tx, locals: set<Address>, limit: int,
                                   accepted: bool) {
    exists roomy :: Cleared(before, roomy, tx, locals, limit) && Placed(roomy, after, tx, accepted)
  }

  lemma PlacedMeaning(before: Lookup, roomy: Lookup, after: Lookup, tx: Tx, bump: nat, accepted: bool,
                      locals: set<Address>, limit: int)
    requires Placed(roomy, after, tx, accepted) && (accepted <==> OutbidsSlot(roomy, tx, bump))
    requires !Live(roomy, tx) && (forall t :: Live(roomy, t) ==> Live(before, t))
    requires Cleared(before, roomy, tx, locals, limit)
    ensures accepted <==> !SlotTaken(after, tx, bump)
    ensures |after| <= |before| + 1 && ClearedAndPlaced(before, after, tx, locals, limit, accepted)
    ensures accepted ==> Live(after, tx) && forall t :: Live(after, t) && SameSlot(t, tx) ==> t == tx
    ensures !accepted ==> after == roomy
    ensures forall t :: Live(after, t) ==> Live(roomy, t) || (t == tx && accepted)
  {
    hide Outbids, Cleared;
    forall h: Hash | h in after
      ensures h in before.Keys + {HashOf(tx)}
    {
      assert Live(after, h.preimage);
    }
    SubsetSize(after.Keys, before.Keys + {HashOf(tx)});
  }

  /** What Discard promises about the entries it drops for `needed` slots and those that stay. */
  ghost predicate Discarded(drop: seq<Tx>, items: seq<Tx>, before: Lookup, locals: set<Address>, needed: int) {
    && (forall t :: t in drop ==> Live(before, t) && t.from !in locals)
    && CoversAllBut(items, before, drop)
    && (forall d, t :: d in drop && t in items && t.from !in locals ==> NoBetter(d, t))
    && (SeqSlots(drop) >= needed || forall t :: t in items ==> t.from in locals)
    && (drop != [] ==> SeqSlots(drop[..|drop| - 1]) < needed)
  }

  /** Removing what Discard dropped makes room, with no more than the last one beyond what was needed. */
  lemma ClearedBy(before: Lookup, after: Lookup, tx: Tx, locals: set<Address>, limit: int, drop: seq<Tx>,
                  items: seq<Tx>)
    requires Discarded(drop, items, before, locals, Slots(before) - limit + tx.NumSlots())
    requires forall t :: Live(after, t) <==> Live(before, t) && t !in drop
    requires Slots(after) == Slots(before) - Freed(drop)
    ensures Cleared(before, after, tx, locals, limit)
    ensures Distinct(drop) ==> Slots(after) + tx.NumSlots() <= limit || forall t :: Live(after, t) ==> t.from in locals
  {
    hide Slots, Freed, Distinct;
    FreedExact(drop);
    if drop != [] {
      var e := drop[|drop| - 1];
      assert e in drop;
      assert Live(before, e) && !Live(after, e) && Slots(after) + tx.NumSlots() + e.NumSlots() > limit;
    }
  }

  lemma ClearedOnly(before: Lookup, after: Lookup, tx: Tx, locals: set<Address>, limit: int)
    requires Cleared(before, after, tx, locals, limit)
    ensures forall t :: Live(after, t) ==> Live(before, t)
  {
  }

  lemma NoneCleared(all: Lookup, tx: Tx, locals: set<Address>, limit: int)
    ensures Cleared(all, all, tx, locals, limit)
  {
  }

  ghost predicate NextAfter(items: Items, next: Uint64) {
    exists top :: top in items && (forall n | n in items :: n <= top) && next == Wrap(top + 1)
  }

  /** The virtual nonce after `run` was promoted: one above its highest nonce, or unchanged if it is empty. */
  ghost predicate Advanced(run: Items, before: Uint64, after: Uint64) {
    if run == map[] then after == before else NextAfter(run, after)
  }

  lemma RunAdvances(txs: seq<Tx>, run: Items, before: Uint64)
    requires Keyed(run) && Listing(txs, run)
    ensures Advanced(run, before, if txs == [] then before else Wrap(txs[|txs| - 1].nonce + 1))
  {
    EmptyRun(txs, run);
    if txs != [] {
      LastIsNext(run, txs);
    }
  }

  lemma PendingKeyed(p: Lists, q: Lists, all: Lookup, a: Address)
    requires Inv(p, q, all, {}) && a in p
    ensures Keyed(p[a].items) && p[a].items != map[]
  {
  }

  lemma LastIsNext(items: Items, txs: seq<Tx>)
    requires Keyed(items) && Listing(txs, items) && txs != []
    ensures NextAfter(items, Wrap(txs[|txs| - 1].nonce + 1))
  {
    Members(txs, items);
    forall n | n in items
      ensures n <= txs[|txs| - 1].nonce
    {
      assert Holds(items, items[n]);
      var i :| 0 <= i < |txs| && txs[i] == items[n];
    }
    HighestIsNext(items, txs[|txs| - 1].nonce);
  }

  lemma HighestIsNext(items: Items, top: Uint64)
    requires top in items && forall n | n in items :: n <= top
    ensures NextAfter(items, Wrap(top + 1))
  {
    hide Wrap;
  }

  ghost function Visited(accounts: seq<Address>, i: nat): set<Address>
    requires i <= |accounts|
  {
    set a | a in accounts[..i]
  }

  lemma VisitedEnds(accounts: seq<Address>)
    ensures Visited(accounts, 0) == {} && forall a :: a in Visited(accounts, |accounts|) <==> a in accounts
  {
    assert accounts[..|accounts|] == accounts;
  }

  lemma VisitedStep(accounts: seq<Address>, i: nat)
    requires i < |accounts|
    ensures Visited(accounts, i + 1) == Visited(accounts, i) + {accounts[i]}
  {
    assert accounts[..i + 1] == accounts[..i] + [accounts[i]];
  }

  method Addresses(lists: Lists) returns (addresses: seq<Address>)
    ensures forall a :: a in addresses <==> a in lists
  {
    addresses := [];
    var rest := lists.Keys;
    while rest != {}
      invariant rest <= lists.Keys
      invariant forall a :: a in lists <==> a in addresses || a in rest
      decreases |rest|
    {
      var a :| a in rest;
      addresses, rest := addresses + [a], rest - {a};
    }
  }
}
