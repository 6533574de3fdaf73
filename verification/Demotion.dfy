/**
 What demoteUnexecutables (l2geth/core/tx_pool.go) leaves pending and puts back on the queue, account
 by account, stated on plain maps.
 */
module Demotion {
  import opened Transactions
  import opened SortedMap
  import opened TxLists
  import opened PricedList
  import opened PoolState
  import opened PoolSteps
  import opened Promotion

  /** Whether a pending transaction stays pending in demoteUnexecutables. */
  ghost predicate Stays(chain: ChainState, lists: Lists, t: Tx) {
    && In(lists, t)
    && Holds(Executable(lists[t.from], chain.Nonce(t.from), chain.Balance(t.from), chain.gasLimit).items, t)
  }

  /** Whether a pending transaction goes back to the queue in demoteUnexecutables. */
  ghost predicate Falls(chain: ChainState, lists: Lists, t: Tx) {
    In(lists, t) && t in Demoted(lists[t.from], chain.Nonce(t.from), chain.Balance(t.from), chain.gasLimit)
  }

  /** The account's chain nonce is pending, and nothing pending from there up to `t` is unfit. */
  ghost predicate Reached(chain: ChainState, lists: Lists, t: Tx) {
    && In(lists, t) && chain.Nonce(t.from) in lists[t.from].items
    && (forall n | n in lists[t.from].items && chain.Nonce(t.from) <= n <= t.nonce ::
          !TooDear(chain.Balance(t.from), chain.gasLimit)(lists[t.from].items[n]))
    && t.nonce >= chain.Nonce(t.from)
  }

  /** What the payable part of a strict list holds. */
  lemma PayableExactly(l: List, nonce: Uint64, balance: int, maxGas: Uint64, n: Uint64)
    requires l.strict && l.Bounded()
    ensures n in Affordable(l, nonce, balance, maxGas).items <==>
            && n in l.items && n >= nonce
            && forall m | m in l.items && nonce <= m <= n :: !TooDear(balance, maxGas)(l.items[m])
    ensures n in Affordable(l, nonce, balance, maxGas).items ==>
              Affordable(l, nonce, balance, maxGas).items[n] == l.items[n]
  {
    hide TooDear;
    var l1 := l.Forward(nonce);
    ShortCircuitExact(l1, balance, maxGas);
    hide List.Filter;
    assert forall m :: m in l1.items <==> m in l.items && m >= nonce;
    if NoneUpTo(l1.items, TooDear(balance, maxGas), n) {
      forall m | m in l.items && nonce <= m <= n
        ensures !TooDear(balance, maxGas)(l.items[m])
      {
        assert m in l1.items;
      }
    }
  }

  lemma ExecutableExactly(l: List, nonce: Uint64, balance: int, maxGas: Uint64, n: Uint64)
    requires l.strict && l.Bounded()
    ensures n in Executable(l, nonce, balance, maxGas).items <==>
            n in Affordable(l, nonce, balance, maxGas).items && nonce in l.items
    ensures n in Executable(l, nonce, balance, maxGas).items ==>
              Executable(l, nonce, balance, maxGas).items[n] == l.items[n]
  {
    PayableExactly(l, nonce, balance, maxGas, n);
    PayableExactly(l, nonce, balance, maxGas, nonce);
    hide TooDear, List.Forward, List.Filter;
  }

  /** What is put back on the queue: the payable transactions that do not stay. */
  lemma DemotedExactly(l: List, a: Address, nonce: Uint64, balance: int, maxGas: Uint64, t: Tx)
    requires GoodList(l, a, true) && Holds(l.items, t)
    ensures t in Demoted(l, nonce, balance, maxGas) <==>
            !Unfit(t, nonce, balance, maxGas) && t.nonce !in Executable(l, nonce, balance, maxGas).items
  {
    var l1 := l.Forward(nonce);
    ForwardGood(l, a, true, nonce);
    ShortCircuitExact(l1, balance, maxGas);
    ExecutableExactly(l, nonce, balance, maxGas, t.nonce);
    PayableExactly(l, nonce, balance, maxGas, t.nonce);
    assert l1.FilterDrops(balance, maxGas) == Reject(l1.items, TooDear(balance, maxGas)) by {
      DropsExactly(l1, balance, maxGas);
    }
    hide TooDear, List.Filter, Executable;
    var invalids := l1.FilterInvalids(balance, maxGas);
    var gapped := Affordable(l, nonce, balance, maxGas).items - Executable(l, nonce, balance, maxGas).items.Keys;
    assert t in Txs(invalids) <==> t.nonce in invalids;
    assert t in Txs(gapped) <==> t.nonce in gapped;
  }

  lemma DropsExactly(l: List, balance: int, maxGas: Uint64)
    requires l.Bounded()
    ensures l.FilterDrops(balance, maxGas) == Reject(l.items, TooDear(balance, maxGas))
  {
  }

  /**
   A pending transaction stays exactly if it is reached from the chain nonce without an unfit one on the
   way; it goes back to the queue exactly if it is fit itself but not reached; otherwise it is unfit.
   */
  lemma StaysExactly(chain: ChainState, p: Lists, q: Lists, all: Lookup, t: Tx)
    requires Inv(p, q, all, {}) && In(p, t)
    ensures Stays(chain, p, t) <==> Reached(chain, p, t)
    ensures Falls(chain, p, t) <==> !UnfitFor(chain, t) && !Reached(chain, p, t)
  {
    hide TooDear, Demoted, Executable, Affordable;
    var l := p[t.from];
    var nonce, balance, maxGas := chain.Nonce(t.from), chain.Balance(t.from), chain.gasLimit;
    assert GoodList(l, t.from, true);
    hide Inv;
    PayableExactly(l, nonce, balance, maxGas, t.nonce);
    ExecutableExactly(l, nonce, balance, maxGas, t.nonce);
    DemotedExactly(l, t.from, nonce, balance, maxGas, t);
  }

  /** One account's turn in demoteUnexecutables, on plain lists. */
  ghost predicate Demotes(chain: ChainState, p: Lists, q: Lists, a: Address, p': Lists, q': Lists) {
    && (a in p' ==> Runnable(p'[a], chain.Nonce(a), chain.Balance(a), chain.gasLimit))
    && (forall b | b != a :: b in p' <==> b in p)
    && (forall b | b != a && b in p' :: p'[b] == p[b])
    && (forall t :: In(p', t) <==> if t.from == a then Stays(chain, p, t) else In(p, t))
    && (forall t :: In(q', t) <==> In(q, t) || (t.from == a && Falls(chain, p, t)))
  }

  lemma DemotesBy(chain: ChainState, p: Lists, q: Lists, all: Lookup, a: Address, p': Lists, q': Lists)
    requires Inv(p, q, all, {}) && a in p
    requires p' == With(p, a, Executable(p[a], chain.Nonce(a), chain.Balance(a), chain.gasLimit))
    requires forall t :: In(q', t) <==> In(q, t) || t in Demoted(p[a], chain.Nonce(a), chain.Balance(a), chain.gasLimit)
    ensures Demotes(chain, p, q, a, p', q')
  {
    hide Inv, In, Holds, Executable, Demoted, With, Runnable, TooDear;
    DemoteMeaning(p, q, all, a, chain.Nonce(a), chain.Balance(a), chain.gasLimit);
  }

  /** What left the pool in an account's turn was unfit. */
  lemma LeftByDemotion(chain: ChainState, p: Lists, q: Lists, all: Lookup, a: Address, p': Lists, q': Lists,
                       all': Lookup, d: Tx)
    requires Inv(p, q, all, {}) && Inv(p', q', all', {}) && a in p && Live(all, d) && !Live(all', d)
    requires p' == With(p, a, Executable(p[a], chain.Nonce(a), chain.Balance(a), chain.gasLimit))
    requires forall t :: In(q', t) <==> In(q, t) || t in Demoted(p[a], chain.Nonce(a), chain.Balance(a), chain.gasLimit)
    ensures Unfit(d, chain.Nonce(d.from), chain.Balance(d.from), chain.gasLimit)
  {
    InvMeaning(p, q, all);
    InvMeaning(p', q', all');
    hide Inv, In, Holds, Executable, Demoted, With, Runnable, TooDear;
    DemoteMeaning(p, q, all, a, chain.Nonce(a), chain.Balance(a), chain.gasLimit);
  }

  /** All accounts but `rest` had their turn. */
  ghost predicate DemotedBut(chain: ChainState, p0: Lists, q0: Lists, rest: set<Address>, p: Lists, q: Lists) {
    && rest <= p.Keys <= p0.Keys
    && (forall a | a in rest :: p[a] == p0[a])
    && (forall a | a in p && a !in rest :: Runnable(p[a], chain.Nonce(a), chain.Balance(a), chain.gasLimit))
    && (forall t: Tx | t.from !in rest :: In(p, t) <==> Stays(chain, p0, t))
    && (forall t :: In(q, t) <==> In(q0, t) || (t.from !in rest && Falls(chain, p0, t)))
  }

  lemma DemoteStep(chain: ChainState, p0: Lists, q0: Lists, rest: set<Address>, p: Lists, q: Lists, a: Address,
                   p': Lists, q': Lists)
    requires DemotedBut(chain, p0, q0, rest, p, q) && a in rest && Demotes(chain, p, q, a, p', q')
    ensures DemotedBut(chain, p0, q0, rest - {a}, p', q')
  {
    hide Executable, Demoted, Runnable;
    assert forall t: Tx | t.from == a :: Stays(chain, p, t) <==> Stays(chain, p0, t);
    assert forall t: Tx | t.from == a :: Falls(chain, p, t) <==> Falls(chain, p0, t);
  }

  lemma RestPending(chain: ChainState, p0: Lists, q0: Lists, rest: set<Address>, p: Lists, q: Lists)
    requires DemotedBut(chain, p0, q0, rest, p, q)
    ensures rest <= p.Keys
  {
  }

  lemma AllDemoted(chain: ChainState, p0: Lists, q0: Lists, p: Lists, q: Lists)
    requires DemotedBut(chain, p0, q0, {}, p, q)
    ensures forall a | a in p :: Runnable(p[a], chain.Nonce(a), chain.Balance(a), chain.gasLimit)
    ensures forall t :: In(p, t) <==> Stays(chain, p0, t)
    ensures forall t :: In(q, t) <==> In(q0, t) || Falls(chain, p0, t)
  {
  }

  lemma NoneDemoted(chain: ChainState, p: Lists, q: Lists)
    ensures DemotedBut(chain, p, q, p.Keys, p, q)
  {
  }
}
