/**
 What one account's turn in promoteExecutables (l2geth/core/tx_pool.go) means: which queued
 transactions leave and why, and that nothing executable stays behind.
 */
module Promotion {
  import opened Transactions
  import opened SortedMap
  import opened TxLists
  import opened PricedList
  import opened PoolState
  import opened PoolSteps
  import opened Truncation

  /** Outdated, or more than the account can pay or a block can hold. */
  predicate Unfit(t: Tx, nonce: Uint64, balance: int, maxGas: Uint64) {
    t.nonce < nonce || TooDear(balance, maxGas)(t)
  }

  predicate UnfitFor(chain: ChainState, t: Tx) {
    Unfit(t, chain.Nonce(t.from), chain.Balance(t.from), chain.gasLimit)
  }

  /** Nothing here is executable now: all nonces are above the next one, and all are payable. */
  ghost predicate Waiting(items: Items, nonce: Uint64, balance: int, maxGas: Uint64, next: Uint64) {
    forall n | n in items :: n > next && n >= nonce && !TooDear(balance, maxGas)(items[n])
  }

  /** What stays queued after the ready run was promoted has to wait. */
  lemma RestWaits(l: List, a: Address, nonce: Uint64, balance: int, maxGas: Uint64, start: Uint64, txs: seq<Tx>)
    requires GoodList(l, a, false) && Listing(txs, Ready(l, nonce, balance, maxGas, start))
    ensures Waiting(Affordable(l, nonce, balance, maxGas).Ready(start).items, nonce, balance, maxGas,
                    if txs == [] then start else Wrap(txs[|txs| - 1].nonce + 1))
  {
    hide ReadyRun, TooDear;
    ForwardGood(l, a, false, nonce);
    FilterGood(l.Forward(nonce), a, false, balance, maxGas);
    AffordableItems(l, a, false, nonce, balance, maxGas);
    RestAfterRun(Affordable(l, nonce, balance, maxGas).items, start, txs);
  }

  /** Promotion finds nothing to do on a list that has to wait. */
  lemma WaitingIsIdle(l: List, a: Address, nonce: Uint64, balance: int, maxGas: Uint64, start: Uint64)
    requires GoodList(l, a, false) && Waiting(l.items, nonce, balance, maxGas, start)
    ensures Ready(l, nonce, balance, maxGas, start) == map[]
    ensures Affordable(l, nonce, balance, maxGas).Ready(start).items == l.items
  {
    hide TooDear;
    assert AtLeast(l.items, nonce) == l.items;
    assert Keep(l.items, TooDear(balance, maxGas)) == l.items;
    ShortCircuitExact(l.Forward(nonce), balance, maxGas);
    NoneReady(l.items, start);
  }

  /** A queued transaction that is neither promoted nor kept is unfit, or its account is at the limit. */
  lemma PromoteLeaves(l: List, a: Address, nonce: Uint64, balance: int, maxGas: Uint64, start: Uint64, local: bool,
                      limit: nat, d: Tx)
    requires GoodList(l, a, false) && Holds(l.items, d) && !Holds(Ready(l, nonce, balance, maxGas, start), d)
    requires !Holds(Limited(Affordable(l, nonce, balance, maxGas).Ready(start), local, limit).items, d)
    ensures Unfit(d, nonce, balance, maxGas) ||
            (!local && |Limited(Affordable(l, nonce, balance, maxGas).Ready(start), local, limit).items| == limit)
  {
    var l1, l2 := l.Forward(nonce), Affordable(l, nonce, balance, maxGas);
    PromoteShrinks(l, a, nonce, balance, maxGas, start);
    AffordableItems(l, a, false, nonce, balance, maxGas);
    TxsHold(Ready(l, nonce, balance, maxGas, start));
    hide List.Filter, List.FilterDrops, ReadyRun, TooDear;
    if Holds(l2.Ready(start).items, d) {
      OverLimit(l2.Ready(start).items, limit, d);
    }
  }

  /** So a second turn in a row changes nothing. */
  lemma SecondTurn(l: List, a: Address, nonce: Uint64, balance: int, maxGas: Uint64, start: Uint64, local: bool,
                   limit: nat)
    requires GoodList(l, a, false) && Waiting(l.items, nonce, balance, maxGas, start) && (local || |l.items| <= limit)
    ensures Ready(l, nonce, balance, maxGas, start) == map[]
    ensures Limited(Affordable(l, nonce, balance, maxGas).Ready(start), local, limit).items == l.items
  {
    hide Affordable, Ready, List.Ready, Waiting;
    WaitingIsIdle(l, a, nonce, balance, maxGas, start);
    if !local {
      LowestAll(l.items, limit);
    }
  }

  lemma EmptyTurn(nonce: Uint64, balance: int, maxGas: Uint64, start: Uint64, local: bool, limit: nat)
    ensures Ready(List(false, map[], 0, 0), nonce, balance, maxGas, start) == map[]
    ensures Limited(Affordable(List(false, map[], 0, 0), nonce, balance, maxGas).Ready(start), local, limit).items ==
            map[]
  {
  }

  lemma LenIsGet(lists: Lists)
    ensures forall a :: Len(lists, a) == |Get(lists, a, false).items|
  {
  }

  /** What the pool holds and knows at one moment. */
  datatype View = View(pending: Lists, queue: Lists, beats: map<Address, int>, nonces: map<Address, Uint64>,
                       chain: ChainState)
  {
    /** The virtual nonce of an account, read through to the chain state. */
    function Next(a: Address): Uint64 {
      if a in nonces then nonces[a] else chain.Nonce(a)
    }

    /** The part of an account's queue that is executable now. */
    function Executables(a: Address): Items {
      Ready(Get(queue, a, false), chain.Nonce(a), chain.Balance(a), chain.gasLimit, Next(a))
    }

    /** What promotion leaves in an account's queue. */
    function Leftover(a: Address, local: bool, limit: nat): Items {
      Limited(Affordable(Get(queue, a, false), chain.Nonce(a), chain.Balance(a), chain.gasLimit).Ready(Next(a)), local,
              limit).items
    }
  }

  /**
   What removing transactions does to pending: it only loses slots, at the top of each list, an account is
   forgotten with its last one, and each virtual nonce falls to the lowest slot its account lost, if that
   is lower.
   */
  ghost predicate Receded(v: View, v': View) {
    && v'.chain == v.chain
    && v'.pending.Keys <= v.pending.Keys && v'.beats == Heard(v.beats, v.pending, v'.pending)
    && (forall a, n: Uint64 | Taken(v'.pending, a, n) :: Taken(v.pending, a, n))
    && (forall a, n: Uint64, m: Uint64 |
          Taken(v.pending, a, n) && !Taken(v'.pending, a, n) && Taken(v'.pending, a, m) :: m < n)
    && (forall a :: v'.Next(a) <= v.Next(a))
    && (forall a, n: Uint64 | Taken(v.pending, a, n) && !Taken(v'.pending, a, n) :: v'.Next(a) <= n)
    && (forall a :: v'.Next(a) == v.Next(a) ||
          (Taken(v.pending, a, v'.Next(a)) && !Taken(v'.pending, a, v'.Next(a))))
  }

  lemma RecededNot(v: View, v': View)
    requires v'.chain == v.chain && v'.pending == v.pending && v'.beats == v.beats && v'.nonces == v.nonces
    ensures Receded(v, v')
  {
    HeardSame(v.beats, v.pending);
  }

  lemma RecededTwice(v: View, v': View, v'': View)
    requires Receded(v, v') && Receded(v', v'')
    ensures Receded(v, v'')
  {
    hide Taken, View.Next;
    HeardTwice(v.beats, v.pending, v'.pending, v''.pending);
  }

  /** Placing a transaction in a slot that is taken, or on the queue, leaves the slots of pending alone. */
  lemma RecededPlaced(v: View, v': View, v'': View, tx: Tx)
    requires Receded(v, v') && v''.chain == v'.chain && v''.beats == v'.beats && v''.nonces == v'.nonces
    requires v''.pending == v'.pending || (!NonceFree(v'.pending, tx) && v''.pending == Put(v'.pending, true, tx))
    ensures Receded(v, v'')
  {
    if !NonceFree(v'.pending, tx) {
      PlacedSlots(v'.pending, tx);
    }
    assert forall a, n: Uint64 :: Taken(v''.pending, a, n) <==> Taken(v'.pending, a, n);
    assert forall a :: v''.Next(a) == v'.Next(a);
    hide Taken, View.Next;
    assert v''.pending.Keys == v'.pending.Keys;
  }

  lemma PlacedSlots(p: Lists, tx: Tx)
    requires !NonceFree(p, tx)
    ensures Put(p, true, tx).Keys == p.Keys
    ensures forall a, n: Uint64 :: Taken(Put(p, true, tx), a, n) <==> Taken(p, a, n)
  {
  }

  /** What removing one pending transaction does, in these terms. */
  lemma RecededBy(v: View, v': View, tx: Tx)
    requires Sound(v.pending, true) && In(v.pending, tx) && v'.pending == Without(v.pending, tx) && v'.chain == v.chain
    requires v'.pending.Keys <= v.pending.Keys && v'.beats == Heard(v.beats, v.pending, v'.pending)
    requires forall a :: v'.Next(a) ==
               if a == tx.from && tx.nonce < v.Next(a) then tx.nonce else v.Next(a)
    ensures Receded(v, v')
  {
    WithoutSlots(v.pending, tx, v'.pending, {});
    assert Taken(v.pending, tx.from, tx.nonce);
    hide Taken, View.Next, Sound, In, Without;
  }

  /** What cutting a pending list's highest nonce off does, in these terms. */
  lemma RecededCut(v: View, v': View, a: Address, top: Uint64)
    requires a in v.pending && top in v.pending[a].items && |v.pending[a].items| >= 2
    requires forall n | n in v.pending[a].items :: n <= top
    requires v'.pending == v.pending[a := v.pending[a].Cap(|v.pending[a].items| - 1)]
    requires v'.pending[a].items.Keys == v.pending[a].items.Keys - {top}
    requires v'.chain == v.chain && v'.beats == v.beats
    requires forall b :: v'.Next(b) == if b == a && top < v.Next(b) then top else v.Next(b)
    ensures Receded(v, v')
  {
    hide View.Next, List.Cap;
    assert v'.pending.Keys == v.pending.Keys;
    HeardSame(v.beats, v.pending);
    assert Heard(v.beats, v.pending, v'.pending) == v.beats;
    assert forall b, n: Uint64 :: Taken(v'.pending, b, n) <==> Taken(v.pending, b, n) && !(b == a && n == top);
    assert Taken(v.pending, a, top);
    hide Taken;
  }

  /** A virtual nonce stays while its account loses no pending slot. */
  lemma NoneGone(v: View, v': View)
    requires Receded(v, v')
    ensures forall a | a !in v.pending :: v'.Next(a) == v.Next(a)
  {
  }

  lemma NotQueued(v: View, a: Address, local: bool, limit: nat)
    ensures a !in v.queue ==> v.Executables(a) == map[] && v.Leftover(a, local, limit) == map[]
  {
    EmptyTurn(v.chain.Nonce(a), v.chain.Balance(a), v.chain.gasLimit, v.Next(a), local, limit);
  }

  lemma NothingWaits(nonce: Uint64, balance: int, maxGas: Uint64, next: Uint64)
    ensures Waiting(map[], nonce, balance, maxGas, next)
  {
  }

  /** All transactions of a ready run belong to the account. */
  lemma RunOwned(l: List, a: Address, nonce: Uint64, balance: int, maxGas: Uint64, start: Uint64, txs: seq<Tx>)
    requires GoodList(l, a, false) && Listing(txs, Ready(l, nonce, balance, maxGas, start))
    ensures forall t | t in txs :: t.from == a
  {
    hide TooDear;
    ForwardGood(l, a, false, nonce);
    FilterGood(l.Forward(nonce), a, false, balance, maxGas);
    Members(txs, Ready(l, nonce, balance, maxGas, start));
  }

  /** The queue after an account's turn. */
  function Turn(q: Lists, a: Address, nonce: Uint64, balance: int, maxGas: Uint64, start: Uint64, local: bool,
                limit: nat): Lists
    requires a in q
  {
    With(q, a, Limited(Affordable(q[a], nonce, balance, maxGas).Ready(start), local, limit))
  }

  lemma RunHolds(l: List, a: Address, nonce: Uint64, balance: int, maxGas: Uint64, start: Uint64)
    requires GoodList(l, a, false)
    ensures forall t | Holds(Ready(l, nonce, balance, maxGas, start), t) :: t.from == a
  {
    PromoteShrinks(l, a, nonce, balance, maxGas, start);
    TxsHold(Ready(l, nonce, balance, maxGas, start));
  }

  lemma RestKeyed(l: List, a: Address, nonce: Uint64, balance: int, maxGas: Uint64, start: Uint64)
    requires GoodList(l, a, false)
    ensures Keyed(Affordable(l, nonce, balance, maxGas).Ready(start).items)
  {
    PromoteShrinks(l, a, nonce, balance, maxGas, start);
  }

  lemma TurnKeeps(q: Lists, a: Address, nonce: Uint64, balance: int, maxGas: Uint64, start: Uint64, local: bool,
                  limit: nat)
    requires a in q && GoodList(q[a], a, false)
    ensures !local ==> Len(Turn(q, a, nonce, balance, maxGas, start, local, limit), a) <= limit
    ensures Get(Turn(q, a, nonce, balance, maxGas, start, local, limit), a, false).items ==
            Limited(Affordable(q[a], nonce, balance, maxGas).Ready(start), local, limit).items
    ensures forall b | b != a ::
              Get(Turn(q, a, nonce, balance, maxGas, start, local, limit), b, false) == Get(q, b, false)
  {
    hide Affordable, List.Ready, Keyed, Lowest;
    RestKeyed(q[a], a, nonce, balance, maxGas, start);
    LowestSize(Affordable(q[a], nonce, balance, maxGas).Ready(start).items, limit);
  }

  /** After its turn an account's queue has to wait. */
  lemma TurnWaits(q: Lists, a: Address, nonce: Uint64, balance: int, maxGas: Uint64, start: Uint64, local: bool,
                  limit: nat, next: Uint64)
    requires a in q
    requires Waiting(Affordable(q[a], nonce, balance, maxGas).Ready(start).items, nonce, balance, maxGas, next)
    ensures Waiting(Get(Turn(q, a, nonce, balance, maxGas, start, local, limit), a, false).items,
                    nonce, balance, maxGas, next)
  {
    hide Affordable, List.Ready, TooDear;
  }

  /** What left the pool in an account's turn was unfit, or one too many in the account's queue. */
  lemma LeftInTurn(p: Lists, q: Lists, all: Lookup, p': Lists, all': Lookup, a: Address,
                   nonce: Uint64, balance: int, maxGas: Uint64, start: Uint64, local: bool, limit: nat, d: Tx)
    requires Inv(p, q, all, {}) && a in q && Live(all, d) && !Live(all', d)
    requires Inv(p', Turn(q, a, nonce, balance, maxGas, start, local, limit), all', {})
    requires forall t :: In(p', t) <==> In(p, t) || Holds(Ready(q[a], nonce, balance, maxGas, start), t)
    ensures d.from == a
    ensures Unfit(d, nonce, balance, maxGas) ||
            (!local && Len(Turn(q, a, nonce, balance, maxGas, start, local, limit), a) >= limit)
  {
    hide List.Forward, List.Filter, ReadyRun, Unfit;
    assert In(q, d);
    PromoteLeaves(q[a], a, nonce, balance, maxGas, start, local, limit, d);
  }
}
