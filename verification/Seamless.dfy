/**
 While the chain state stays, every pending list of the pool (l2geth/core/tx_pool.go) is a run without gaps
 from the account's chain nonce up to its virtual nonce, whatever is added, removed, promoted or cut.
 */
module Seamless {
  import opened Wrappers
  import opened Transactions
  import opened SortedMap
  import opened TxLists
  import opened PricedList
  import opened PoolState
  import opened PoolSteps
  import opened Truncation
  import opened Batches
  import opened Promotion
  import opened Background
  import Gas

  /** An account's pending nonces are exactly those from its chain nonce up to its virtual nonce. */
  ghost predicate Gapless(v: View, a: Address) {
    && v.chain.Nonce(a) <= v.Next(a)
    && forall n: Uint64 :: Taken(v.pending, a, n) <==> v.chain.Nonce(a) <= n < v.Next(a)
  }

  ghost predicate AllGapless(v: View) {
    forall a :: Gapless(v, a)
  }

  /** No nonce is the last one, after which the virtual nonce would wrap around. */
  ghost predicate NoLast(all: Lookup) {
    forall t :: Live(all, t) ==> t.nonce < Gas.MAX_UINT64
  }

  lemma StillNoLast(all: Lookup, p: Lists, txs: seq<Tx>, errs: seq<Option<Error>>, locals: set<Address>, crowded: bool,
                    all': Lookup, p': Lists)
    requires PooledSoFar(all, p, txs, errs, locals, crowded, all', p') && NoLast(all)
    requires forall t | t in txs :: t.nonce < Gas.MAX_UINT64
    ensures NoLast(all')
  {
  }

  /** Removals take slots off the top, and the virtual nonce falls with them. */
  lemma RecededGapless(v: View, v': View)
    requires AllGapless(v) && Receded(v, v')
    ensures AllGapless(v')
  {
    hide Taken, View.Next;
    forall a
      ensures Gapless(v', a)
    {
      assert Gapless(v, a);
      forall n: Uint64
        ensures Taken(v'.pending, a, n) <==> v.chain.Nonce(a) <= n < v'.Next(a)
      {
        if Taken(v.pending, a, v'.Next(a)) && !Taken(v'.pending, a, v'.Next(a)) && Taken(v'.pending, a, n) {
          assert n < v'.Next(a);
        }
      }
    }
  }

  /** What is executable continues the pending list where it ends. */
  lemma RunJoins(v: View, a: Address, n: Uint64)
    requires Sound(v.queue, false) && Apart(v.pending, v.queue) && Gapless(v, a) && n in v.Executables(a)
    ensures v.Next(a) <= n && forall j: Uint64 | v.Next(a) <= j <= n :: j in v.Executables(a)
  {
    NotQueued(v, a, false, 0);
    var items := Affordable(v.queue[a], v.chain.Nonce(a), v.chain.Balance(a), v.chain.gasLimit).items;
    AffordableItems(v.queue[a], a, false, v.chain.Nonce(a), v.chain.Balance(a), v.chain.gasLimit);
    forall x | x in items
      ensures x >= v.Next(a)
    {
      assert x in v.queue[a].items && x >= v.chain.Nonce(a);
      assert !Taken(v.pending, a, x);
    }
    hide Affordable, Taken;
    var m :| m in items && m <= v.Next(a);
    assert InFirstRun(items, n);
  }

  lemma SlotOfTx(lists: Lists, strict: bool, a: Address, n: Uint64)
    requires Sound(lists, strict)
    ensures Taken(lists, a, n) <==> exists t: Tx :: t.from == a && t.nonce == n && In(lists, t)
  {
    if Taken(lists, a, n) {
      assert In(lists, lists[a].items[n]);
    }
  }

  lemma RunOfTx(v: View, a: Address, n: Uint64)
    requires Sound(v.queue, false)
    ensures n in v.Executables(a) <==> exists t: Tx :: t.from == a && t.nonce == n && Holds(v.Executables(a), t)
  {
    NotQueued(v, a, false, 0);
    if n in v.Executables(a) {
      PromoteShrinks(v.queue[a], a, v.chain.Nonce(a), v.chain.Balance(a), v.chain.gasLimit, v.Next(a));
      RunHolds(v.queue[a], a, v.chain.Nonce(a), v.chain.Balance(a), v.chain.gasLimit, v.Next(a));
      assert Holds(v.Executables(a), v.Executables(a)[n]);
    }
  }

  /** The slots of pending after promotion. */
  lemma SlotsGained(start: View, dirty: seq<Address>, promoted: Lists, a: Address, n: Uint64)
    requires Sound(start.pending, true) && Sound(start.queue, false) && Sound(promoted, true)
    requires PendingGains(start, false, dirty, promoted)
    ensures Taken(promoted, a, n) <==> Taken(start.pending, a, n) || (a in dirty && n in start.Executables(a))
  {
    SlotOfTx(start.pending, true, a, n);
    SlotOfTx(promoted, true, a, n);
    RunOfTx(start, a, n);
    hide Sound, In, Taken, Holds, View.Executables;
  }

  /** A run that continues a list without gaps. */
  lemma Continued(v: View, v': View, a: Address)
    requires Gapless(v, a) && Sound(v.queue, false) && Apart(v.pending, v.queue) && v'.chain == v.chain
    requires forall n: Uint64 :: Taken(v'.pending, a, n) <==> Taken(v.pending, a, n) || n in v.Executables(a)
    requires Advanced(v.Executables(a), v.Next(a), v'.Next(a))
    requires forall n | n in v.Executables(a) :: n < Gas.MAX_UINT64
    ensures Gapless(v', a)
  {
    hide Taken, View.Executables, View.Next, Sound, Apart;
    if v.Executables(a) != map[] {
      var top :| top in v.Executables(a) && (forall n | n in v.Executables(a) :: n <= top) &&
                 v'.Next(a) == Wrap(top + 1);
      RunJoins(v, a, top);
      forall n | n in v.Executables(a)
        ensures v.Next(a) <= n
      {
        RunJoins(v, a, n);
      }
    }
  }

  /** Promotion keeps every list gapless. */
  lemma PromotedGapless(start: View, all: Lookup, setting: Setting, dirty: seq<Address>, clock: Address -> int,
                        promoted: Lists, fit: View)
    requires Inv(start.pending, start.queue, all, {}) && NoLast(all) && Sound(fit.pending, true)
    requires AllGapless(start) && Rearranged(start, setting, false, dirty, clock, promoted, fit)
    ensures AllGapless(fit)
  {
    hide Taken, View.Executables, View.Next, Sound, Apart, Advanced, Gapless, HeartbeatsMove, In;
    forall a
      ensures Gapless(fit, a)
    {
      RunIsEarly(start, all, a);
      assert Gapless(start, a);
      forall n: Uint64
        ensures Taken(fit.pending, a, n) <==> Taken(start.pending, a, n) || (a in dirty && n in start.Executables(a))
      {
        SlotsGained(start, dirty, promoted, a, n);
      }
      if a in dirty {
        Continued(start, fit, a);
      } else {
        SameSlots(start, fit, a);
      }
    }
  }

  lemma SameSlots(v: View, v': View, a: Address)
    requires Gapless(v, a) && v'.chain == v.chain && v'.Next(a) == v.Next(a)
    requires forall n: Uint64 :: Taken(v'.pending, a, n) <==> Taken(v.pending, a, n)
    ensures Gapless(v', a)
  {
  }

  lemma RunIsEarly(v: View, all: Lookup, a: Address)
    requires Inv(v.pending, v.queue, all, {}) && NoLast(all)
    ensures forall n | n in v.Executables(a) :: n < Gas.MAX_UINT64
  {
    forall n | n in v.Executables(a)
      ensures n < Gas.MAX_UINT64
    {
      NotQueued(v, a, false, 0);
      assert n in v.queue[a].items;
      assert In(v.queue, v.queue[a].items[n]) && Live(all, v.queue[a].items[n]);
    }
  }

  /** The limits cut lists at the top. */
  lemma CutDown(p: Lists, locals: set<Address>, config: Config, p': Lists, a: Address)
    requires PendingCut(p, locals, config, p')
    ensures p'.Keys == p.Keys && (a in p ==> DownClosed(p'[a].items, p[a].items))
  {
    CutKeys(p, locals, config, p');
    if a in p && Total(p) > config.globalSlots {
      hide Total, Lowest;
      var level: nat :| WaterLevel(p, locals, config.accountSlots, config.globalSlots, level) &&
                        p' == CapAll(p, locals, level);
      LowestDownClosed(p[a].items, level);
    }
  }

  /** The lower part of a gapless list, with the virtual nonce set behind it. */
  lemma Lowered(v: View, v': View, a: Address)
    requires Gapless(v, a) && v'.chain == v.chain && a in v.pending && a in v'.pending
    requires DownClosed(v'.pending[a].items, v.pending[a].items) && NextAfter(v'.pending[a].items, v'.Next(a))
    requires forall n | n in v.pending[a].items :: n < Gas.MAX_UINT64
    ensures Gapless(v', a)
  {
    hide View.Next;
    var items := v'.pending[a].items;
    var top :| top in items && (forall n | n in items :: n <= top) && v'.Next(a) == Wrap(top + 1);
    assert Taken(v.pending, a, top);
    forall n: Uint64
      ensures Taken(v'.pending, a, n) <==> v.chain.Nonce(a) <= n <= top
    {
      assert Taken(v.pending, a, n) <==> v.chain.Nonce(a) <= n < v.Next(a);
    }
  }

  /** The limits and the final update of the virtual nonces keep every list gapless. */
  lemma CutGapless(fit: View, all: Lookup, locals: set<Address>, config: Config, end: View)
    requires AllGapless(fit) && Inv(fit.pending, fit.queue, all, {}) && NoLast(all) && end.chain == fit.chain
    requires PendingCut(fit.pending, locals, config, end.pending)
    requires forall a | a in end.pending :: NextAfter(end.pending[a].items, end.Next(a))
    requires forall a | a !in end.pending :: end.Next(a) == fit.Next(a)
    ensures AllGapless(end)
  {
    hide Gapless, PendingCut, DownClosed, NextAfter, View.Next;
    forall a
      ensures Gapless(end, a)
    {
      assert Gapless(fit, a);
      CutDown(fit.pending, locals, config, end.pending, a);
      if a in fit.pending {
        forall n | n in fit.pending[a].items
          ensures n < Gas.MAX_UINT64
        {
          assert In(fit.pending, fit.pending[a].items[n]) && Live(all, fit.pending[a].items[n]);
        }
        Lowered(fit, end, a);
      } else {
        SameSlots(fit, end, a);
      }
    }
  }
}
