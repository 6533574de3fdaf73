/** The transaction pool (l2geth/core/tx_pool.go). */
module TxPool {
  import opened Wrappers
  import opened Transactions
  import opened SortedMap
  import opened TxLists
  import opened PricedList
  import opened PoolState
  import opened PoolSteps
  import opened Truncation
  import opened QueueTruncation
  import opened Batches
  import opened Promotion
  import opened Demotion
  import opened Background
  import opened Admission
  import opened Seamless
  import opened Sums
  import Gas
  import Heap

  datatype PoolOp =
    | AddTxs(txs: seq<Tx>, local: bool)
    | RemoveOne(hash: Hash)
    | Reprice(price: int)
    | Reorg(reset: Option<ChainState>, reinject: seq<Tx>, dirty: seq<Address>, clock: Address -> int)

  /** No new head arrives, and no transaction has the last nonce. */
  predicate Calm(op: PoolOp) {
    match op
    case AddTxs(txs, local) => forall t | t in txs :: t.nonce < Gas.MAX_UINT64
    case RemoveOne(hash) => true
    case Reprice(price) => true
    case Reorg(reset, reinject, dirty, clock) => reset == None
  }

  /** The pool between two operations. */
  datatype Snapshot = Snapshot(view: View, all: Lookup, setting: Setting)

  ghost predicate QueueLimited(q: Lists, beats: map<Address, int>, setting: Setting, q': Lists) {
    if Total(q) <= setting.config.globalQueue then q' == q else QueueCut(q, beats, setting.locals, q')
  }

  /** What each operation does to the pool. */
  ghost predicate Stepped(op: PoolOp, s: Snapshot, s': Snapshot) {
    && s'.setting.config == s.setting.config
    && match op
       case AddTxs(txs, local) =>
         && s'.setting.gasPrice == s.setting.gasPrice && Receded(s.view, s'.view)
         && var crowded := |s.all| + |txs| > s.setting.config.globalSlots + s.setting.config.globalQueue;
            exists errs ::
              && |errs| == |txs|
              && PooledSoFar(s.all, s.view.pending, txs, errs, s.setting.locals, crowded, s'.all, s'.view.pending)
              && LocalSoFar(s.all, txs, errs, local, s.setting.locals, s'.setting.locals)
       case RemoveOne(hash) =>
         s'.setting == s.setting && s'.all == s.all - {hash} && Receded(s.view, s'.view)
       case Reprice(price) =>
         && s'.setting == s.setting.(gasPrice := price) && Receded(s.view, s'.view)
         && forall t :: Live(s'.all, t) <==> Live(s.all, t) && (t.from in s.setting.locals || t.price >= price)
       case Reorg(reset, reinject, dirty, clock) =>
         && s'.setting == s.setting
         && var crowded := |s.all| + |reinject| > s.setting.config.globalSlots + s.setting.config.globalQueue;
            exists start, promoted, fit ::
              && (if reset == None then start == s.view
                  else ResetTo(s.view, s.all, s.setting, crowded, reset.value, reinject, start))
              && Rearranged(start, s.setting, reset.Some?, dirty, clock, promoted, fit)
              && PendingCut(fit.pending, s.setting.locals, s.setting.config, s'.view.pending)
              && QueueLimited(fit.queue, fit.beats, s.setting, s'.view.queue) && s'.view.chain == fit.chain
  }

  lemma AddsBy(s: Snapshot, txs: seq<Tx>, local: bool, errs: seq<Option<Error>>, s': Snapshot)
    requires s'.setting.config == s.setting.config && s'.setting.gasPrice == s.setting.gasPrice
    requires Receded(s.view, s'.view) && |errs| == |txs|
    requires PooledSoFar(s.all, s.view.pending, txs, errs, s.setting.locals,
                         |s.all| + |txs| > s.setting.config.globalSlots + s.setting.config.globalQueue,
                         s'.all, s'.view.pending)
    requires LocalSoFar(s.all, txs, errs, local, s.setting.locals, s'.setting.locals)
    ensures Stepped(AddTxs(txs, local), s, s')
  {
    hide Receded, PooledSoFar, LocalSoFar;
  }

  lemma RemovesBy(s: Snapshot, hash: Hash, s': Snapshot)
    requires s'.setting == s.setting && s'.all == s.all - {hash} && Receded(s.view, s'.view)
    ensures Stepped(RemoveOne(hash), s, s')
  {
  }

  lemma RepricesBy(s: Snapshot, price: int, s': Snapshot)
    requires s'.setting == s.setting.(gasPrice := price) && Receded(s.view, s'.view)
    requires forall t :: Live(s'.all, t) <==> Live(s.all, t) && (t.from in s.setting.locals || t.price >= price)
    ensures Stepped(Reprice(price), s, s')
  {
  }

  lemma LimitedBy(q: Lists, beats: map<Address, int>, setting: Setting, q': Lists)
    requires if Total(q) <= setting.config.globalQueue then q' == q else QueueCut(q, beats, setting.locals, q')
    ensures QueueLimited(q, beats, setting, q')
  {
  }

  lemma ReorgsBy(s: Snapshot, reset: Option<ChainState>, reinject: seq<Tx>, dirty: seq<Address>, clock: Address -> int,
                 start: View, promoted: Lists, fit: View, s': Snapshot)
    requires s'.setting == s.setting && s'.view.chain == fit.chain
    requires if reset == None then start == s.view
             else ResetTo(s.view, s.all, s.setting,
                          |s.all| + |reinject| > s.setting.config.globalSlots + s.setting.config.globalQueue,
                          reset.value, reinject, start)
    requires Rearranged(start, s.setting, reset.Some?, dirty, clock, promoted, fit)
    requires PendingCut(fit.pending, s.setting.locals, s.setting.config, s'.view.pending)
    requires QueueLimited(fit.queue, fit.beats, s.setting, s'.view.queue)
    ensures Stepped(Reorg(reset, reinject, dirty, clock), s, s')
  {
    hide ResetTo, Rearranged, PendingCut, QueueLimited;
  }

  class Pool {
    const config: Config
    const all: TxLookup
    const priced: TxPricedList
    var locals: set<Address>
    var pending: Lists
    var queue: Lists
    var beats: map<Address, int>
    var pendingNonces: map<Address, Uint64>
    // the chain state the pool validates against
    var stateNonces: map<Address, Uint64>
    var stateBalances: map<Address, int>
    var currentMaxGas: Uint64
    var gasPrice: int
    var istanbul: bool

    ghost predicate Books()
      reads this, all, priced
    {
      all.Valid() && priced.Valid() && priced.lookup == all && config.accountSlots >= 1
    }

    /** The pool invariant while `transit` is being moved and `out` has left the price heap. */
    ghost predicate State(transit: set<Tx>, out: seq<Tx>)
      reads this, all, priced
    {
      && Books()
      && Inv(pending, queue, all.all, transit)
      && CoversAllBut(priced.items, all.all, out)
    }

    /** What holds between pool operations. */
    ghost predicate Valid()
      reads this, all, priced
    {
      State({}, [])
    }

    constructor (config: Config, locals: set<Address>, gasPrice: int)
      ensures Valid() && fresh(all) && fresh(priced)
      ensures pending == map[] && queue == map[] && all.all == map[] && AllGapless(Now()) && NoLast(all.all)
      ensures this.config == Sanitize(config) && this.locals == locals && this.gasPrice == gasPrice
    {
      this.config := Sanitize(config);
      var lookup := new TxLookup();
      all := lookup;
      priced := new TxPricedList(lookup);
      this.locals := locals;
      pending, queue, beats, pendingNonces := map[], map[], map[], map[];
      stateNonces, stateBalances := map[], map[];
      currentMaxGas, istanbul := 0, false;
      this.gasPrice := gasPrice;
    }

    /** The chain state the pool works on. */
    function Chain(): ChainState
      reads this
    {
      ChainState(stateNonces, stateBalances, currentMaxGas, istanbul)
    }

    function StateNonce(a: Address): Uint64
      reads this
    {
      Chain().Nonce(a)
    }

    function StateBalance(a: Address): int
      reads this
    {
      Chain().Balance(a)
    }

    function Now(): View
      reads this
    {
      View(pending, queue, beats, pendingNonces, Chain())
    }

    ghost function Snap(): Snapshot
      reads this, all
    {
      Snapshot(Now(), all.all, Settings())
    }

    /** The virtual nonce of an account, read through to the chain state. */
    function PendingNonce(a: Address): Uint64
      reads this
    {
      Now().Next(a)
    }

    method SetIfLower(a: Address, nonce: Uint64)
      modifies this`pendingNonces
      ensures PendingNonce(a) == if nonce < old(PendingNonce(a)) then nonce else old(PendingNonce(a))
      ensures forall b :: b != a ==> PendingNonce(b) == old(PendingNonce(b))
    {
      pendingNonces := pendingNonces[a := PendingNonce(a)];
      if pendingNonces[a] > nonce {
        pendingNonces := pendingNonces[a := nonce];
      }
    }

    /** Replaces `prior` by `tx` in the lookup and keeps the price heap covering. */
    method Register(prior: Option<Tx>, tx: Tx, ghost out: seq<Tx>)
      requires Books() && CoversAllBut(priced.items, all.all, out)
      requires prior.Some? ==> Live(all.all, prior.value)
      modifies all, priced
      ensures Books() && CoversAllBut(priced.items, all.all, out)
      ensures all.all == Registered(old(all.all), prior, tx)
    {
      if prior.Some? {
        all.Remove(HashOf(prior.value));
        priced.Removed(1);
      }
      if all.Get(HashOf(tx)) == None {
        all.Add(tx);
        priced.Put(tx);
      }
    }

    /** Drops a hash from the lookup, telling the price heap when its entry stays behind. */
    method Forget(hash: Hash, outofbound: bool, ghost out: seq<Tx>)
      requires Books() && CoversAllBut(priced.items, all.all, out) && hash in all.all
      modifies all, priced
      ensures Books() && CoversAllBut(priced.items, all.all, out)
      ensures all.all == old(all.all) - {hash}
    {
      all.Remove(hash);
      if outofbound {
        priced.Removed(1);
      }
    }

    /** Puts `tx` on the queue of its account, unless a queued transaction of the same nonce is better. */
    method EnqueueTx(tx: Tx, ghost transit: set<Tx>, ghost out: seq<Tx>) returns (replaced: bool, err: Option<Error>)
      requires State(transit, out)
      requires NonceFree(pending, tx) && (tx in transit || !Live(all.all, tx))
      requires forall t | t in transit && SameSlot(t, tx) :: t == tx
      modifies this`queue, all, priced
      ensures err == if Get(old(queue), tx.from, false).Accepts(tx, config.priceBump) then None
                     else Some(ReplaceUnderpriced)
      ensures replaced == (err == None && !NonceFree(old(queue), tx))
      ensures State(if err == None then transit - {tx} else transit, out)
      ensures queue == if err == None then Put(old(queue), false, tx) else old(queue)
      ensures all.all == if err == None then Swapped(old(all.all), old(queue), tx) else old(all.all)
    {
      hide Inv, CoversAllBut, TxLookup.Valid, TxPricedList.Valid;
      var list := Get(queue, tx.from, false);
      if !list.Accepts(tx, config.priceBump) {
        return false, Some(ReplaceUnderpriced);
      }
      EnqueueKeepsInv(pending, queue, all.all, transit, tx);
      PriorLive(pending, queue, all.all, transit, tx);
      var prior := if tx.nonce in list.items then Some(list.items[tx.nonce]) else None;
      queue := queue[tx.from := list.Add(tx)];
      Register(prior, tx, out);
      return prior.Some?, None;
    }

    /** Puts `tx` on the pending list of its account, unless a pending one of the same nonce is better. */
    method PromoteTx(tx: Tx, now: int, ghost transit: set<Tx>, ghost out: seq<Tx>) returns (inserted: bool)
      requires State(transit, out)
      requires NonceFree(queue, tx)
      requires tx in transit || (!Live(all.all, tx) && Get(pending, tx.from, true).Accepts(tx, config.priceBump))
      modifies this`pending, this`beats, this`pendingNonces, all, priced
      ensures inserted == Get(old(pending), tx.from, true).Accepts(tx, config.priceBump)
      ensures State(transit - {tx}, out)
      ensures pending == if inserted then Put(old(pending), true, tx) else old(pending)
      ensures all.all == if inserted then Swapped(old(all.all), old(pending), tx) else old(all.all) - {HashOf(tx)}
      ensures inserted ==> PendingNonce(tx.from) == Wrap(tx.nonce + 1)
      ensures forall b :: b != tx.from ==> PendingNonce(b) == old(PendingNonce(b))
      ensures beats == if inserted then old(beats)[tx.from := now] else old(beats)
    {
      hide Inv, CoversAllBut, TxLookup.Valid, TxPricedList.Valid, Wrap;
      var list := Get(pending, tx.from, true);
      if !list.Accepts(tx, config.priceBump) {
        RejectKeepsInv(pending, queue, all.all, transit, tx);
        Forget(HashOf(tx), true, out);
        return false;
      }
      PromoteKeepsInv(pending, queue, all.all, transit, tx);
      PriorLive(pending, queue, all.all, transit, tx);
      var prior := if tx.nonce in list.items then Some(list.items[tx.nonce]) else None;
      pending := pending[tx.from := list.Add(tx)];
      Register(prior, tx, out);
      beats := beats[tx.from := now];
      pendingNonces := pendingNonces[tx.from := Wrap(tx.nonce + 1)];
      return true;
    }

    /** Queues every transaction in transit; none of them finds its nonce taken. */
    method EnqueueAll(txs: set<Tx>, ghost out: seq<Tx>)
      requires State(txs, out)
      requires forall t | t in txs :: NonceFree(pending, t)
      modifies this`queue, all, priced
      ensures State({}, out)
      ensures all.all == old(all.all)
      ensures forall t :: In(queue, t) <==> In(old(queue), t) || t in txs
    {
      var rest := txs;
      while rest != {}
        invariant rest <= txs && State(rest, out)
        invariant all.all == old(all.all)
        invariant forall t | t in rest :: NonceFree(pending, t)
        invariant forall t :: In(queue, t) <==> In(old(queue), t) || (t in txs && t !in rest)
        decreases |rest|
      {
        var tx :| tx in rest;
        PutIn(queue, false, tx);
        var replaced, err := EnqueueTx(tx, rest, out);
        rest := rest - {tx};
      }
    }

    /** The virtual nonces after a pending transaction was removed, as the view has them. */
    lemma NextAll(v: View, from: Address, nonce: Uint64)
      requires PendingNonce(from) == if nonce < v.Next(from) then nonce else v.Next(from)
      requires forall a :: a != from ==> PendingNonce(a) == v.Next(a)
      ensures forall a :: Now().Next(a) == if a == from && nonce < v.Next(a) then nonce else v.Next(a)
    {
      forall a
        ensures Now().Next(a) == if a == from && nonce < v.Next(a) then nonce else v.Next(a)
      {
        assert PendingNonce(a) == Now().Next(a);
      }
    }

    /** Takes a forgotten transaction off its pending list; the later ones of the account are queued again. */
    method RemovePendingTx(tx: Tx, ghost before: Lookup, ghost out: seq<Tx>)
      requires Books() && CoversAllBut(priced.items, all.all, out)
      requires Inv(pending, queue, before, {}) && In(pending, tx) && all.all == before - {HashOf(tx)}
      modifies this`pending, this`queue, this`beats, this`pendingNonces, all, priced
      ensures State({}, out) && all.all == old(all.all)
      ensures pending == Without(old(pending), tx)
      ensures forall t :: In(queue, t) <==> In(old(queue), t) || Follows(old(pending), tx, t)
      ensures PendingNonce(tx.from) == if tx.nonce < old(PendingNonce(tx.from)) then tx.nonce
                                       else old(PendingNonce(tx.from))
      ensures forall a :: a != tx.from ==> PendingNonce(a) == old(PendingNonce(a))
      ensures Receded(old(Now()), Now()) && (tx.from !in locals ==> Shrunk(old(pending), pending, locals))
    {
      hide Inv, CoversAllBut, TxLookup.Valid, TxPricedList.Valid, Follows, With, List.Remove, Receded, Shrunk,
        Without;
      var addr := tx.from;
      var list := pending[addr];
      var invalids := Txs(AtLeast(list.items, tx.nonce + 1));
      ghost var v := Now();
      OnPendingList(pending, queue, before, tx);
      RemovePending(pending, queue, before, tx);
      HeardWith(beats, pending, addr, list.Remove(tx.nonce));
      if list.Remove(tx.nonce).items == map[] {
        beats := beats - {addr};
      }
      pending := With(pending, addr, list.Remove(tx.nonce));
      EnqueueAll(invalids, out);
      SetIfLower(addr, tx.nonce);
      NextAll(v, addr, tx.nonce);
      RecededBy(v, Now(), tx);
      WithoutSlots(v.pending, tx, pending, locals);
    }

    /** Removes a transaction; later pending ones of the account go back to the queue. */
    method RemoveTx(hash: Hash, outofbound: bool, ghost out: seq<Tx>)
      requires State({}, out)
      modifies this`pending, this`queue, this`beats, this`pendingNonces, all, priced
      ensures State({}, out)
      ensures all.all == old(all.all) - {hash}
      ensures hash !in old(all.all) ==> pending == old(pending) && queue == old(queue)
      ensures hash in old(all.all) && In(old(pending), hash.preimage) ==>
                && pending == Without(old(pending), hash.preimage)
                && forall t :: In(queue, t) <==> In(old(queue), t) || Follows(old(pending), hash.preimage, t)
      ensures hash in old(all.all) && !In(old(pending), hash.preimage) ==>
                In(old(queue), hash.preimage) && pending == old(pending) && queue == Without(old(queue), hash.preimage)
      ensures !In(old(pending), hash.preimage) ==> pendingNonces == old(pendingNonces)
      ensures forall a :: PendingNonce(a) ==
                if hash in old(all.all) && In(old(pending), hash.preimage) && a == hash.preimage.from
                   && hash.preimage.nonce < old(PendingNonce(a))
                then hash.preimage.nonce else old(PendingNonce(a))
      ensures Receded(old(Now()), Now()) && (hash.preimage.from !in locals ==> Shrunk(old(pending), pending, locals))
    {
      hide CoversAllBut, TxPricedList.Valid, Follows, Sound, Apart, List.Remove, Receded, Shrunk;
      ghost var v := Now();
      RecededNot(v, v);
      NothingShrunk(pending, locals);
      var got := all.Get(hash);
      if got == None {
        assert all.all - {hash} == all.all;
        return;
      }
      var tx := got.value;
      var addr := tx.from;
      ghost var before := all.all;
      Forget(hash, outofbound, out);
      if addr in pending && tx.nonce in pending[addr].items {
        PendingByNonce(pending, queue, before, tx);
        RemovePendingTx(tx, before, out);
        return;
      }
      RemoveQueued(pending, queue, before, tx);
      if addr in queue {
        queue := With(queue, addr, queue[addr].Remove(tx.nonce));
      }
      RecededNot(v, Now());
    }

    /** Drops hashes from the lookup; the caller reports the stale heap entries later. */
    method ForgetAll(txs: set<Tx>)
      requires all.Valid() && forall t | t in txs :: Live(all.all, t)
      modifies all
      ensures all.Valid()
      ensures all.all == old(all.all) - HashSet(txs) && |all.all| == |old(all.all)| - |txs|
    {
      var rest := txs;
      while rest != {}
        invariant rest <= txs && all.Valid()
        invariant forall t :: Live(all.all, t) <==> Live(old(all.all), t) && (t in rest || t !in txs)
        invariant |all.all| - |rest| == |old(all.all)| - |txs|
        decreases |rest|
      {
        var tx :| tx in rest;
        all.Remove(HashOf(tx));
        rest := rest - {tx};
      }
      DropLive(old(all.all), txs);
      SameLive(all.all, old(all.all) - HashSet(txs));
    }

    /** Drops hashes from the lookup and reports all their stale heap entries at once. */
    method ForgetStale(x: set<Tx>, y: set<Tx>)
      requires Books() && CoversAllBut(priced.items, all.all, [])
      requires forall t | t in x :: Live(all.all, t)
      requires forall t | t in y :: Live(all.all - HashSet(x), t)
      modifies all, priced
      ensures Books() && CoversAllBut(priced.items, all.all, [])
      ensures all.all == old(all.all) - HashSet(x) - HashSet(y)
    {
      LeaveInTwoSteps(all.all, x, y);
      ForgetAll(x);
      ForgetAll(y);
      priced.Removed(|x| + |y|);
    }

    /** Promotes a transaction in transit that finds its nonce free: nothing is displaced. */
    method PromoteReady(tx: Tx, now: int, ghost transit: set<Tx>)
      requires State(transit, []) && tx in transit && NonceFree(pending, tx)
      modifies this`pending, this`beats, this`pendingNonces, all, priced
      ensures State(transit - {tx}, []) && all.all == old(all.all)
      ensures forall t :: In(pending, t) <==> In(old(pending), t) || t == tx
      ensures forall t :: NonceFree(old(pending), t) && !SameSlot(t, tx) ==> NonceFree(pending, t)
      ensures PendingNonce(tx.from) == Wrap(tx.nonce + 1)
      ensures forall b :: b != tx.from ==> PendingNonce(b) == old(PendingNonce(b))
      ensures beats == old(beats)[tx.from := now]
    {
      hide Inv, CoversAllBut, TxLookup.Valid, TxPricedList.Valid, Wrap, Swapped, Put, NonceFree, List.Accepts, In;
      ReadyPromotes(pending, queue, all.all, transit, tx, config.priceBump);
      var inserted := PromoteTx(tx, now, transit, []);
    }

    /** Promotes an account's run of transactions in transit, in nonce order; none finds its nonce taken. */
    method PromoteAll(txs: seq<Tx>, now: int, ghost run: Items, ghost addr: Address)
      requires Keyed(run) && Listing(txs, run) && State(Txs(run), [])
      requires forall t | t in txs :: NonceFree(pending, t) && t.from == addr
      modifies this`pending, this`beats, this`pendingNonces, all, priced
      ensures Valid()
      ensures all.all == old(all.all)
      ensures forall t :: In(pending, t) <==> In(old(pending), t) || t in txs
      ensures PendingNonce(addr) == if txs == [] then old(PendingNonce(addr)) else Wrap(txs[|txs| - 1].nonce + 1)
      ensures forall b :: b != addr ==> PendingNonce(b) == old(PendingNonce(b))
      ensures beats == if txs == [] then old(beats) else old(beats)[addr := now]
    {
      hide Inv, CoversAllBut, TxLookup.Valid, TxPricedList.Valid, Wrap, Txs, Keyed, Listing, NonceFree, In, SameSlot,
        Rest, Upto;
      RunEnds(txs, run);
      for i := 0 to |txs|
        invariant State(Rest(txs, i), []) && all.all == old(all.all)
        invariant forall t | t in Rest(txs, i) :: NonceFree(pending, t)
        invariant forall t :: In(pending, t) <==> In(old(pending), t) || t in Upto(txs, i)
        invariant PendingNonce(addr) == if i == 0 then old(PendingNonce(addr)) else Wrap(txs[i - 1].nonce + 1)
        invariant forall b :: b != addr ==> PendingNonce(b) == old(PendingNonce(b))
        invariant beats == if i == 0 then old(beats) else old(beats)[addr := now]
      {
        RunTail(txs, i, run);
        PromoteReady(txs[i], now, Rest(txs, i));
      }
    }

    /** The per-account limit of the queue; returns how many transactions were dropped. */
    method CapQueued(addr: Address) returns (dropped: nat)
      requires Valid()
      modifies this`queue, all
      ensures Valid()
      ensures queue == if addr in old(queue)
                       then With(old(queue), addr, Limited(old(queue)[addr], addr in locals, config.accountQueue))
                       else old(queue)
      ensures all.all.Keys <= old(all.all.Keys) && dropped == |old(all.all)| - |all.all|
    {
      hide Inv, TxLookup.Valid, TxPricedList.Valid, Txs, HashSet;
      dropped := 0;
      if addr in locals || addr !in queue {
        if addr in queue {
          QueuedList(pending, queue, all.all, addr);
        }
        return;
      }
      var list := queue[addr];
      var caps := Txs(list.items - Lowest(list.items, config.accountQueue).Keys);
      CapStage(pending, queue, all.all, addr, config.accountQueue, caps);
      ForgetAll(caps);
      queue := With(queue, addr, list.Cap(config.accountQueue));
      dropped := |caps|;
    }

    /** Takes the outdated, the unaffordable and the now executable transactions off a queued list. */
    method DrainQueued(addr: Address, nonce: Uint64, balance: int, maxGas: Uint64, start: Uint64)
      returns (readies: seq<Tx>, dropped: nat)
      requires Valid() && addr in queue
      modifies this`queue, all
      ensures var run := Ready(old(queue)[addr], nonce, balance, maxGas, start);
              && Keyed(run) && Listing(readies, run)
              && State(Txs(run), [])
              && (forall t | t in readies :: NonceFree(pending, t))
      ensures queue == With(old(queue), addr, Affordable(old(queue)[addr], nonce, balance, maxGas).Ready(start))
      ensures all.all.Keys <= old(all.all.Keys) && dropped == |old(all.all)| - |all.all|
    {
      hide Inv, TxLookup.Valid, TxPricedList.Valid, With;
      var list := queue[addr];
      PromoteStage(pending, queue, all.all, addr, nonce, balance, maxGas, start);
      var forwards := Txs(Below(list.items, nonce));
      var drops := Txs(list.Forward(nonce).FilterDrops(balance, maxGas));
      ForgetAll(forwards);
      ForgetAll(drops);
      list := Affordable(list, nonce, balance, maxGas);
      readies := SortedContents(ReadyRun(list.items, start));
      queue := With(queue, addr, list.Ready(start));
      dropped := |forwards| + |drops|;
    }

    /** Promotes the executable part of a queued list; returns how many others were dropped. */
    method PromoteRun(addr: Address, nonce: Uint64, balance: int, maxGas: Uint64, start: Uint64, now: int)
      returns (dropped: nat)
      requires Valid() && addr in queue && start == PendingNonce(addr)
      modifies this`pending, this`queue, this`beats, this`pendingNonces, all, priced
      ensures Valid()
      ensures var run := Ready(old(queue)[addr], nonce, balance, maxGas, start);
              && (forall t :: In(pending, t) <==> In(old(pending), t) || Holds(run, t))
              && Advanced(run, start, PendingNonce(addr))
              && beats == if run == map[] then old(beats) else old(beats)[addr := now]
      ensures var l := Affordable(old(queue)[addr], nonce, balance, maxGas).Ready(start);
              queue == With(old(queue), addr, l) && Waiting(l.items, nonce, balance, maxGas, PendingNonce(addr))
      ensures forall b :: b != addr ==> PendingNonce(b) == old(PendingNonce(b))
      ensures all.all.Keys <= old(all.all.Keys)
    {
      hide Inv, TxLookup.Valid, TxPricedList.Valid, Waiting, Affordable, Limited, With, Wrap, In, Txs, Keyed,
        NonceFree, Ready, List.Ready, Listing, Advanced;
      ghost var run := Ready(queue[addr], nonce, balance, maxGas, start);
      QueuedList(pending, queue, all.all, addr);
      ghost var from := queue[addr];
      var readies;
      readies, dropped := DrainQueued(addr, nonce, balance, maxGas, start);
      RestWaits(from, addr, nonce, balance, maxGas, start, readies);
      RunOwned(from, addr, nonce, balance, maxGas, start, readies);
      PromoteAll(readies, now, run, addr);
      EmptyRun(readies, run);
      RunAdvances(readies, run, start);
      ListingHolds(readies, run);
    }

    /** Promotes the executable part of a queued list and cuts the rest to the account limit. */
    method PromoteList(addr: Address, nonce: Uint64, balance: int, maxGas: Uint64, start: Uint64, now: int)
      requires Valid() && addr in queue && start == PendingNonce(addr)
      modifies this`pending, this`queue, this`beats, this`pendingNonces, all, priced
      ensures Valid()
      ensures var run := Ready(old(queue)[addr], nonce, balance, maxGas, start);
              && (forall t :: In(pending, t) <==> In(old(pending), t) || Holds(run, t))
              && Advanced(run, start, PendingNonce(addr))
              && beats == if run == map[] then old(beats) else old(beats)[addr := now]
      ensures var l := Affordable(old(queue)[addr], nonce, balance, maxGas).Ready(start);
              && queue == With(old(queue), addr, Limited(l, addr in locals, config.accountQueue))
              && Waiting(l.items, nonce, balance, maxGas, PendingNonce(addr))
      ensures forall b :: b != addr ==> PendingNonce(b) == old(PendingNonce(b))
      ensures all.all.Keys <= old(all.all.Keys)
    {
      hide Inv, TxLookup.Valid, TxPricedList.Valid, Waiting, Affordable, Limited, With, In, Ready, List.Ready,
        Advanced, Holds;
      ghost var list := Affordable(queue[addr], nonce, balance, maxGas).Ready(start);
      WithTwice(queue, addr, list, addr in locals, config.accountQueue);
      var dropped := PromoteRun(addr, nonce, balance, maxGas, start, now);
      var caps := CapQueued(addr);
      priced.Removed(dropped + caps);
    }

    function Settings(): Setting
      reads this
    {
      Setting(config, locals, gasPrice)
    }

    /** What an account's queue holds has to wait. */
    ghost predicate Settled(a: Address)
      reads this
    {
      SettledIn(Now(), a)
    }

    predicate NotFit(t: Tx)
      reads this
    {
      UnfitFor(Chain(), t)
    }

    /** The part of an account's queue that is executable now. */
    ghost function Executables(a: Address): Items
      reads this
    {
      Now().Executables(a)
    }

    /** What promotion leaves in an account's queue. */
    ghost function Leftover(a: Address): Items
      reads this
    {
      LeftIn(Now(), Settings(), a)
    }

    /** One account's turn in promoteExecutables; what it does to the lists is said by PromoteList. */
    method PromoteAccount(addr: Address, now: int)
      requires Valid()
      modifies this`pending, this`queue, this`beats, this`pendingNonces, all, priced
      ensures Valid() && all.all.Keys <= old(all.all.Keys)
      ensures TurnTaken(old(Now()), Settings(), now, addr, Now())
      ensures forall d :: Live(old(all.all), d) && !Live(all.all, d) ==>
                d.from == addr && (NotFit(d) || (addr !in locals && |old(Leftover(addr))| >= config.accountQueue))
    {
      hide Inv, CoversAllBut, TxLookup.Valid, TxPricedList.Valid, Waiting, Affordable, Limited, Unfit, Ready,
        List.Ready, TurnTaken, In, Advanced;
      ghost var v, known := Now(), all.all;
      if addr in queue {
        var nonce, balance, start := StateNonce(addr), StateBalance(addr), PendingNonce(addr);
        PromoteList(addr, nonce, balance, currentMaxGas, start, now);
        forall b | b != addr
          ensures Now().Next(b) == v.Next(b)
        {
          assert PendingNonce(b) == old(PendingNonce(b));
        }
        TurnBy(v, Settings(), now, addr, Now(), known);
        forall d | Live(known, d) && !Live(all.all, d)
          ensures d.from == addr && (NotFit(d) || (addr !in locals && Len(queue, addr) >= config.accountQueue))
        {
          LeftInTurn(v.pending, v.queue, known, pending, all.all, addr, nonce, balance, currentMaxGas, start,
                     addr in locals, config.accountQueue, d);
        }
      } else {
        NoTurn(v, Settings(), now, addr);
      }
    }

    /**
     Moves what has become executable from the queue to pending, account by account: pending gains
     exactly that, and the queue keeps exactly the rest within the account limit. A transaction leaves
     only if it is unfit or its account's queue is full, and nothing executable stays queued. `clock` is
     the time at which the last transaction of an account is promoted.
     */
    method PromoteExecutables(accounts: seq<Address>, clock: Address -> int)
      requires Valid()
      modifies this`pending, this`queue, this`beats, this`pendingNonces, all, priced
      ensures Valid()
      ensures forall t :: In(pending, t) <==>
                In(old(pending), t) || (t.from in accounts && Holds(old(Executables(t.from)), t))
      ensures forall a :: Get(queue, a, false).items ==
                if a in accounts then old(Leftover(a)) else Get(old(queue), a, false).items
      ensures forall a :: Beat(beats, a) ==
                if a in accounts && old(Executables(a)) != map[] then clock(a) else Beat(old(beats), a)
      ensures forall a :: if a in accounts then Advanced(old(Executables(a)), old(PendingNonce(a)), PendingNonce(a))
                          else PendingNonce(a) == old(PendingNonce(a))
      ensures all.all.Keys <= old(all.all.Keys)
      ensures forall a | a in accounts && a !in locals :: Len(queue, a) <= config.accountQueue
      ensures forall a | a in accounts :: Settled(a)
      ensures forall d :: Live(old(all.all), d) && !Live(all.all, d) ==>
                NotFit(d) || (d.from !in locals && Len(queue, d.from) >= config.accountQueue)
    {
      hide Inv, CoversAllBut, TxLookup.Valid, TxPricedList.Valid, PromotedIn, LeftBy, TurnTaken, Visited, UnfitFor,
        LeftIn, SettledIn, View.Executables, In, Get, Beat, Len, Advanced;
      ghost var start, setting, known := Now(), Settings(), all.all;
      VisitedEnds(accounts);
      NonePromoted(start, setting, clock);
      NoneLeft(start, setting, known);
      for i := 0 to |accounts|
        invariant Valid() && PromotedIn(start, setting, clock, Visited(accounts, i), Now())
        invariant LeftBy(start, setting, Visited(accounts, i), known, all.all)
      {
        ghost var v, before := Now(), all.all;
        PromoteAccount(accounts[i], clock(accounts[i]));
        PromoteStep(start, setting, clock, Visited(accounts, i), v, before, accounts[i], Now());
        SameChain(start, setting, clock, Visited(accounts, i), v, accounts[i], Now());
        LeftStep(start, setting, Visited(accounts, i), known, before, accounts[i], all.all);
        VisitedStep(accounts, i);
      }
      PromotedAll(start, setting, clock, accounts, Visited(accounts, |accounts|), Now(), known, all.all);
    }

    /** Takes the outdated and unaffordable off a pending list; what became unexecutable is queued again. */
    method DemoteList(addr: Address, nonce: Uint64, balance: int, maxGas: Uint64)
      requires Valid() && addr in pending
      modifies this`pending, this`queue, this`beats, all, priced
      ensures Valid()
      ensures pending == With(old(pending), addr, Executable(old(pending)[addr], nonce, balance, maxGas))
      ensures var demoted := Demoted(old(pending)[addr], nonce, balance, maxGas);
              forall t :: In(queue, t) <==> In(old(queue), t) || t in demoted
      ensures pending.Keys <= old(pending).Keys && beats == Heard(old(beats), old(pending), pending)
      ensures all.all.Keys <= old(all.all.Keys)
    {
      hide Inv, CoversAllBut, TxLookup.Valid, TxPricedList.Valid, Executable, Demoted, Txs;
      var list := pending[addr];
      DemoteStage(pending, queue, all.all, addr, nonce, balance, maxGas);
      var olds := Txs(Below(list.items, nonce));
      var drops := Txs(list.Forward(nonce).FilterDrops(balance, maxGas));
      var demoted := Demoted(list, nonce, balance, maxGas);
      ForgetStale(olds, drops);
      HeardWith(beats, pending, addr, Executable(list, nonce, balance, maxGas));
      pending := With(pending, addr, Executable(list, nonce, balance, maxGas));
      EnqueueAll(demoted, []);
      if addr !in pending {
        beats := beats - {addr};
      }
    }

    /** One account's turn in demoteUnexecutables. */
    method DemoteAccount(addr: Address)
      requires Valid() && addr in pending
      modifies this`pending, this`queue, this`beats, all, priced
      ensures Valid()
      ensures Demotes(Chain(), old(pending), old(queue), addr, pending, queue)
      ensures pending.Keys <= old(pending).Keys && beats == Heard(old(beats), old(pending), pending)
      ensures all.all.Keys <= old(all.all.Keys)
      ensures forall d :: Live(old(all.all), d) && !Live(all.all, d) ==> NotFit(d)
    {
      hide Inv, CoversAllBut, TxLookup.Valid, TxPricedList.Valid, Executable, Demoted, With, Demotes, Unfit;
      ghost var p, q, known := pending, queue, all.all;
      DemoteList(addr, StateNonce(addr), StateBalance(addr), currentMaxGas);
      DemotesBy(Chain(), p, q, known, addr, pending, queue);
      forall d | Live(known, d) && !Live(all.all, d)
        ensures NotFit(d)
      {
        LeftByDemotion(Chain(), p, q, known, addr, pending, queue, all.all, d);
      }
    }

    ghost predicate AllRunnable()
      reads this
    {
      forall a | a in pending :: Runnable(pending[a], StateNonce(a), StateBalance(a), currentMaxGas)
    }

    /**
     Demotes every account. Exactly the executable part of each list stays pending, so that each list
     starts at the account's chain nonce and holds only what the account can pay and a block can hold;
     exactly what was cut off behind it is queued again, and nothing else left the pool.
     */
    method DemoteUnexecutables()
      requires Valid()
      modifies this`pending, this`queue, this`beats, all, priced
      ensures Valid()
      ensures AllRunnable()
      ensures forall t :: In(pending, t) <==> Stays(Chain(), old(pending), t)
      ensures forall t :: In(queue, t) <==> In(old(queue), t) || Falls(Chain(), old(pending), t)
      ensures pending.Keys <= old(pending).Keys && beats == Heard(old(beats), old(pending), pending)
      ensures all.all.Keys <= old(all.all.Keys)
      ensures forall d :: Live(old(all.all), d) && !Live(all.all, d) ==> NotFit(d)
    {
      hide Inv, CoversAllBut, TxLookup.Valid, TxPricedList.Valid, DemotedBut, Demotes, UnfitFor, Stays, Falls;
      var rest := pending.Keys;
      ghost var p, q := pending, queue;
      NoneDemoted(Chain(), p, q);
      HeardSame(beats, p);
      while rest != {}
        invariant Valid() && DemotedBut(Chain(), p, q, rest, pending, queue)
        invariant pending.Keys <= p.Keys && beats == Heard(old(beats), p, pending)
        invariant all.all.Keys <= old(all.all.Keys)
        invariant forall d :: Live(old(all.all), d) && !Live(all.all, d) ==> NotFit(d)
        decreases |rest|
      {
        var addr :| addr in rest;
        ghost var p', q' := pending, queue;
        RestPending(Chain(), p, q, rest, pending, queue);
        DemoteAccount(addr);
        HeardTwice(old(beats), p, p', pending);
        DemoteStep(Chain(), p, q, rest, p', q', addr, pending, queue);
        rest := rest - {addr};
      }
      AllDemoted(Chain(), p, q, pending, queue);
    }

    method LowerNonces(addr: Address, txs: set<Tx>)
      modifies this`pendingNonces
      ensures forall t | t in txs :: PendingNonce(addr) <= t.nonce
      ensures PendingNonce(addr) <= old(PendingNonce(addr))
      ensures PendingNonce(addr) == old(PendingNonce(addr)) || exists t | t in txs :: PendingNonce(addr) == t.nonce
      ensures forall b :: b != addr ==> PendingNonce(b) == old(PendingNonce(b))
    {
      var rest := txs;
      while rest != {}
        invariant rest <= txs && PendingNonce(addr) <= old(PendingNonce(addr))
        invariant PendingNonce(addr) == old(PendingNonce(addr)) || exists t | t in txs :: PendingNonce(addr) == t.nonce
        invariant forall b :: b != addr ==> PendingNonce(b) == old(PendingNonce(b))
        invariant forall t | t in txs && t !in rest :: PendingNonce(addr) <= t.nonce
        decreases |rest|
      {
        var tx :| tx in rest;
        SetIfLower(addr, tx.nonce);
        rest := rest - {tx};
      }
    }

    /** Drops the highest nonce of one pending list; the account's virtual nonce falls to it. */
    method CapPending(addr: Address)
      requires Valid() && addr in pending && |pending[addr].items| >= 2
      modifies this`pending, this`pendingNonces, all, priced
      ensures Valid()
      ensures pending == old(pending)[addr := old(pending)[addr].Cap(|old(pending)[addr].items| - 1)]
      ensures Total(pending) == Total(old(pending)) - 1
      ensures exists top :: top in old(pending)[addr].items && top !in pending[addr].items &&
                PendingNonce(addr) == if top < old(PendingNonce(addr)) then top else old(PendingNonce(addr))
      ensures forall b :: b != addr ==> PendingNonce(b) == old(PendingNonce(b))
      ensures Receded(old(Now()), Now())
    {
      hide Inv, Total, Lowest, Txs, CoversAllBut, TxLookup.Valid, TxPricedList.Valid, Keyed, Receded, List.Cap;
      ghost var v := Now();
      ListsKeyed(pending, queue, all.all);
      var list := pending[addr];
      var caps := Txs(list.items - Lowest(list.items, |list.items| - 1).Keys);
      CapPendingStage(pending, queue, all.all, addr, |list.items| - 1, caps);
      ghost var top := OneCapped(list, caps);
      pending := pending[addr := list.Cap(|list.items| - 1)];
      ForgetStale(caps, {});
      LowerNonces(addr, caps);
      NextAll(v, addr, top);
      RecededCut(v, Now(), addr, top);
    }

    /** One round of truncatePending: every offender loses its highest nonce. */
    method CapRound(offenders: seq<Address>, pendingCount: nat, ghost start: Lists, ghost level: nat)
      returns (count: nat)
      requires Valid() && AllKeyed(start) && level >= 2
      requires pending == CapAll(start, locals, level) && pendingCount == Total(pending)
      requires forall i, j :: 0 <= i < j < |offenders| ==> offenders[i] != offenders[j]
      requires forall a | a in offenders :: a in start && a !in locals && |start[a].items| >= level
      requires forall a | a in start && a !in locals && a !in offenders :: |start[a].items| < level
      modifies this`pending, this`pendingNonces, all, priced
      ensures Valid()
      ensures pending == CapAll(start, locals, level - 1) && count == Total(pending)
      ensures Receded(old(Now()), Now())
    {
      hide Inv, Total, Lowest, CoversAllBut, RoundState, CapAll, Receded, TxLookup.Valid, TxPricedList.Valid;
      count := pendingCount;
      RecededNot(Now(), Now());
      ghost var done: set<Address> := {};
      RoundStart(start, locals, level);
      for i := 0 to |offenders|
        invariant Valid() && count == Total(pending)
        invariant forall a :: a in done <==> a in offenders[..i]
        invariant pending == RoundState(start, locals, level, done)
        invariant Receded(old(Now()), Now())
      {
        var addr := offenders[i];
        ghost var v := Now();
        RoundStep(start, locals, level, done, addr);
        TotalNonNegative(pending[addr := pending[addr].Cap(level - 1)]);
        CapPending(addr);
        RecededTwice(old(Now()), v, Now());
        done := done + {addr};
        count := count - 1;
        assert offenders[..i + 1] == offenders[..i] + [addr];
      }
      assert offenders[..|offenders|] == offenders;
      RoundDone(start, locals, level, done);
    }

    /** Runs rounds over `group` until the pool fits or the group is down to `floor` each. */
    method ReduceTo(group: seq<Address>, floor: nat, pendingCount: nat, ghost start: Lists, ghost top: nat)
      returns (count: nat, ghost level: nat)
      requires Valid() && AllKeyed(start) && group != []
      requires pending == CapAll(start, locals, top) && pendingCount == Total(pending)
      requires 1 <= floor <= top && Total(CapAll(start, locals, top + 1)) > config.globalSlots
      requires Group(start, locals, group, floor, top)
      modifies this`pending, this`pendingNonces, all, priced
      ensures Valid()
      ensures pending == CapAll(start, locals, level) && count == Total(pending)
      ensures floor <= level <= top && Total(CapAll(start, locals, level + 1)) > config.globalSlots
      ensures count <= config.globalSlots || level == floor
      ensures Receded(old(Now()), Now())
    {
      hide Inv, Total, Lowest, CoversAllBut, CapAll, TxLookup.Valid, TxPricedList.Valid, Group, AllKeyed, Receded;
      RecededNot(Now(), Now());
      count, level := pendingCount, top;
      var last := group[|group| - 1];
      GroupLast(start, locals, group, floor, level);
      while count > config.globalSlots && |pending[last].items| > floor
        invariant Valid() && last in pending
        invariant pending == CapAll(start, locals, level) && count == Total(pending)
        invariant floor <= level <= top && Total(CapAll(start, locals, level + 1)) > config.globalSlots
        invariant Group(start, locals, group, floor, level)
        invariant |pending[last].items| == level
        invariant Receded(old(Now()), Now())
        decreases level
      {
        ghost var v := Now();
        GroupRound(start, locals, group, floor, level);
        count := CapRound(group, count, start, level);
        RecededTwice(old(Now()), v, Now());
        level := level - 1;
        GroupLast(start, locals, group, floor, level);
      }
    }

    method CountAll(lists: Lists) returns (n: nat)
      ensures n == Total(lists)
    {
      n := 0;
      var rest := lists.Keys;
      while rest != {}
        invariant rest <= lists.Keys && n + Sum(rest, LenOf(lists)) == Total(lists)
        decreases |rest|
      {
        var a :| a in rest;
        SumTake(rest, LenOf(lists), a);
        n, rest := n + |lists[a].items|, rest - {a};
      }
    }

    /** The spam queue hands out a largest account; ties are broken arbitrarily. */
    method PopLargest(spammers: map<Address, nat>) returns (a: Address)
      requires spammers != map[]
      ensures Largest(spammers, a)
    {
      ghost var b := LargestExists(spammers);
      assert Largest(spammers, b);
      a :| a in spammers && Largest(spammers, a);
    }

    /** Brings the earlier offenders down to the size of the newest one, or until the pool fits. */
    method TakeOffender(offenders: seq<Address>, offender: Address, pendingCount: nat,
                        ghost start: Lists, ghost spammers: map<Address, nat>, ghost top: nat)
      returns (count: nat, ghost level: nat)
      requires Valid() && AllKeyed(start) && pendingCount == Total(pending) > config.globalSlots
      requires Spam(start, locals, config.accountSlots, offenders, spammers) && Largest(spammers, offender)
      requires Progress(start, locals, config, offenders, spammers, top, pending)
      requires forall a | a in offenders :: Len(start, a) >= top
      modifies this`pending, this`pendingNonces, all, priced
      ensures Valid() && count == Total(pending)
      ensures Filled(start, locals, config.accountSlots, config.globalSlots, level, pending)
      ensures Len(start, offender) <= level
      ensures count > config.globalSlots ==> forall a | a in offenders + [offender] :: Len(start, a) >= level
      ensures Receded(old(Now()), Now())
    {
      hide Inv, Total, Lowest, CapAll, CoversAllBut, TxLookup.Valid, TxPricedList.Valid;
      hide Spam, Group, Progress, Largest, Receded;
      RecededNot(Now(), Now());
      TakeFacts(start, locals, config, offenders, spammers, offender, top, pending);
      if |offenders| > 0 {
        CapAllLen(start, locals, top, offender);
        CapAllKeys(start, locals, top);
        var threshold := |pending[offender].items|;
        count, level := ReduceTo(offenders, threshold, pendingCount, start, top);
      } else {
        count, level := pendingCount, |pending[offender].items|;
        IdleLevel(start, locals, level);
      }
    }

    /** Pops offenders, largest first, equalizing as it goes. */
    method Equalize(queued: map<Address, nat>, pendingCount: nat, ghost start: Lists)
      returns (offenders: seq<Address>, count: nat, ghost level: nat)
      requires Valid() && AllKeyed(start) && pending == start && pendingCount == Total(pending) > config.globalSlots
      requires Spam(start, locals, config.accountSlots, [], queued)
      modifies this`pending, this`pendingNonces, all, priced
      ensures Valid() && count == Total(pending)
      ensures offenders != [] ==> Filled(start, locals, config.accountSlots, config.globalSlots, level, pending)
      ensures offenders == [] ==> pending == start
      ensures count > config.globalSlots ==> Group(start, locals, offenders, config.accountSlots, level)
      ensures Receded(old(Now()), Now())
    {
      hide Inv, Total, Lowest, CapAll, CoversAllBut, TxLookup.Valid, TxPricedList.Valid, Filled;
      hide Spam, Group, Largest, Progress, Receded;
      RecededNot(Now(), Now());
      offenders, count, level := [], pendingCount, 0;
      NoProgress(start, locals, config, queued, level);
      var spammers := queued;
      while count > config.globalSlots && spammers != map[]
        invariant Valid() && count == Total(pending)
        invariant Spam(start, locals, config.accountSlots, offenders, spammers)
        invariant Progress(start, locals, config, offenders, spammers, level, pending)
        invariant count > config.globalSlots ==> forall a | a in offenders :: Len(start, a) >= level
        invariant Receded(old(Now()), Now())
        decreases |spammers|
      {
        ghost var v := Now();
        var offender := PopLargest(spammers);
        SpamStep(start, locals, config.accountSlots, offenders, spammers, offender);
        count, level := TakeOffender(offenders, offender, count, start, spammers, level);
        RecededTwice(old(Now()), v, Now());
        ProgressStep(start, locals, config, offenders, spammers, offender, level, pending);
        spammers := spammers - {offender};
        offenders := offenders + [offender];
      }
      ProgressMeaning(start, locals, config, offenders, spammers, level, pending);
      if count > config.globalSlots {
        SpamLast(start, locals, config.accountSlots, offenders, spammers, level);
      }
    }

    /**
     Cuts the pending lists when the pool is over its limit: every non-local account is cut to
     one common water level, the highest that fits but never below the guaranteed slots. The virtual
     nonce of an account falls to its lowest nonce cut, if that is lower.
     */
    method TruncatePending()
      requires Valid()
      modifies this`pending, this`pendingNonces, all, priced
      ensures Valid()
      ensures Total(old(pending)) <= config.globalSlots ==> pending == old(pending)
      ensures Total(old(pending)) > config.globalSlots ==>
                exists level: nat ::
                  && WaterLevel(old(pending), locals, config.accountSlots, config.globalSlots, level)
                  && pending == CapAll(old(pending), locals, level)
      ensures Receded(old(Now()), Now())
    {
      hide Inv, Total, Lowest, CapAll, CoversAllBut, TxLookup.Valid, TxPricedList.Valid, Spam, Group, Spammers,
        AllKeyed, Receded;
      RecededNot(Now(), Now());
      ghost var start := pending;
      ListsKeyed(pending, queue, all.all);
      var count := CountAll(pending);
      if count <= config.globalSlots {
        return;
      }
      var spammers := Spammers(pending, locals, config.accountSlots);
      SpammersSpam(pending, locals, config.accountSlots);
      var offenders;
      ghost var level;
      offenders, count, level := Equalize(spammers, count, start);
      if count > config.globalSlots && |offenders| > 0 {
        ghost var v := Now();
        count, level := ReduceTo(offenders, config.accountSlots, count, start, level);
        RecededTwice(old(Now()), v, Now());
      } else if |offenders| == 0 {
        NoOffenders(start, locals, config.accountSlots, level);
        level := config.accountSlots;
        IdleLevel(start, locals, level);
      }
      assert WaterLevel(start, locals, config.accountSlots, config.globalSlots, level);
    }

    /** Removing a queued transaction takes exactly that one out and leaves pending alone. */
    method RemoveQueuedTx(tx: Tx)
      requires Valid() && In(queue, tx)
      modifies this`pending, this`queue, this`beats, this`pendingNonces, all, priced
      ensures Valid() && pending == old(pending) && pendingNonces == old(pendingNonces)
      ensures queue == Without(old(queue), tx)
      ensures all.all == old(all.all) - {HashOf(tx)} && beats == old(beats)
    {
      hide CoversAllBut, TxLookup.Valid, TxPricedList.Valid, Sound, Without, Shrunk;
      HeardSame(beats, pending);
      ApartFree(pending, queue);
      RemoveTx(HashOf(tx), true, []);
    }

    /** Drops a whole queued list, one transaction at a time. */
    method DropAccount(addr: Address)
      requires Valid() && addr in queue
      modifies this`pending, this`queue, this`beats, this`pendingNonces, all, priced
      ensures Valid() && pending == old(pending) && beats == old(beats) && pendingNonces == old(pendingNonces)
      ensures queue == old(queue) - {addr}
    {
      hide Inv, CoversAllBut, TxLookup.Valid, TxPricedList.Valid, Without, Reduced, NoncesOf;
      QueuedList(pending, queue, all.all, addr);
      var txs := SortedContents(queue[addr].items);
      NothingGone(queue, addr, txs);
      for i := 0 to |txs|
        invariant Valid() && pending == old(pending) && beats == old(beats) && pendingNonces == old(pendingNonces)
        invariant queue == Reduced(old(queue), addr, NoncesOf(txs[..i]))
      {
        HeadStep(old(queue), addr, txs, i);
        RemoveQueuedTx(txs[i]);
      }
      AllGone(old(queue), addr, txs);
    }

    /** Drops the `n` highest nonces of a queued list, highest first. */
    method DropTail(addr: Address, n: nat)
      requires Valid() && addr in queue && 0 < n < |queue[addr].items|
      modifies this`pending, this`queue, this`beats, this`pendingNonces, all, priced
      ensures Valid() && pending == old(pending) && beats == old(beats) && pendingNonces == old(pendingNonces)
      ensures queue == old(queue)[addr := old(queue)[addr].Cap(|old(queue)[addr].items| - n)]
    {
      hide Inv, CoversAllBut, TxLookup.Valid, TxPricedList.Valid, Without, Reduced, NoncesOf;
      QueuedList(pending, queue, all.all, addr);
      var txs := SortedContents(queue[addr].items);
      EnumeratesSize(txs, queue[addr].items);
      NothingGone(queue, addr, txs);
      var i, left := |txs|, n;
      while i > 0 && left > 0
        invariant 0 <= left <= n && i == |txs| - (n - left)
        invariant Valid() && pending == old(pending) && beats == old(beats) && pendingNonces == old(pendingNonces)
        invariant queue == Reduced(old(queue), addr, NoncesOf(txs[i..]))
      {
        i := i - 1;
        LastStep(old(queue), addr, txs, i);
        RemoveQueuedTx(txs[i]);
        left := left - 1;
      }
      TailGone(old(queue), addr, txs, i);
    }

    /** The non-local queued accounts, sorted by heartbeat. */
    method ByHeartbeat() returns (addresses: seq<Address>)
      ensures forall a :: a in addresses <==> a in queue && a !in locals
      ensures forall i, j :: 0 <= i < j < |addresses| ==>
                addresses[i] != addresses[j] && Beat(beats, addresses[i]) <= Beat(beats, addresses[j])
    {
      var unsorted := [];
      var rest := NonLocal(queue, locals);
      while rest != {}
        invariant multiset(unsorted) + multiset(rest) == multiset(NonLocal(queue, locals))
        decreases |rest|
      {
        var a :| a in rest;
        assert rest == (rest - {a}) + {a};
        unsorted, rest := unsorted + [a], rest - {a};
      }
      addresses := Heap.Sort(unsorted, BeatOf(beats));
      OnceEachAddress(addresses, NonLocal(queue, locals));
    }

    /** One account's turn in truncateQueue. */
    method CutAccount(addr: Address, drop: nat) returns (left: nat)
      requires Valid() && addr in queue && drop > 0
      modifies this`pending, this`queue, this`beats, this`pendingNonces, all, priced
      ensures Valid() && pending == old(pending) && beats == old(beats) && pendingNonces == old(pendingNonces)
      ensures left == if |old(queue)[addr].items| <= drop then drop - |old(queue)[addr].items| else 0
      ensures queue == CutFirst(old(queue), addr, drop)
      ensures Total(queue) - left == Total(old(queue)) - drop
    {
      hide Inv, CoversAllBut, TxLookup.Valid, TxPricedList.Valid, Total;
      QueuedList(pending, queue, all.all, addr);
      CutTotal(queue, addr, drop);
      var size := |queue[addr].items|;
      if size <= drop {
        DropAccount(addr);
        left := drop - size;
      } else {
        DropTail(addr, drop);
        left := 0;
      }
    }

    /**
     Drops queued transactions down to the global limit, whole accounts at a time, the most recent
     heartbeat first; the last account hit keeps its lowest nonces. Locals are exempt.
     */
    method TruncateQueue()
      requires Valid()
      modifies this`pending, this`queue, this`beats, this`pendingNonces, all, priced
      ensures Valid() && pending == old(pending) && beats == old(beats) && pendingNonces == old(pendingNonces)
      ensures Total(old(queue)) <= config.globalQueue ==> queue == old(queue)
      ensures Total(old(queue)) > config.globalQueue ==>
                && (Total(queue) == config.globalQueue ||
                    (Total(queue) > config.globalQueue && forall a | a in queue :: a in locals))
                && QueueCut(old(queue), beats, locals, queue)
      ensures Total(old(queue)) > config.globalQueue ==>
                (OldestFirst(old(queue), beats, locals, queue) <==>
                 OneBeat(old(queue), beats, locals) || LocalTotal(old(queue), locals) >= config.globalQueue)
    {
      hide Inv, CoversAllBut, TxLookup.Valid, TxPricedList.Valid, Total, CutFirst, CutFrom, QueueCut, OldestFirst,
        OneBeat, LocalTotal;
      var queued := CountAll(queue);
      if queued <= config.globalQueue {
        return;
      }
      var addresses := ByHeartbeat();
      var n: nat, drop: nat := |addresses|, queued - config.globalQueue;
      NothingCut(queue, locals, addresses, drop);
      while drop > 0 && n > 0
        invariant Valid() && pending == old(pending) && beats == old(beats) && pendingNonces == old(pendingNonces)
        invariant n <= |addresses|
        invariant Total(queue) == config.globalQueue + drop
        invariant CutFrom(old(queue), locals, addresses, n, drop, queue)
      {
        n := n - 1;
        CutStep(old(queue), locals, addresses, n, drop, queue);
        drop := CutAccount(addresses[n], drop);
      }
      CutMeaning(old(queue), beats, locals, addresses, n, drop, queue);
      QueuedLists(pending, queue, all.all);
      OldestFirstExactly(old(queue), beats, locals, config.globalQueue, queue);
    }

    /** Whether a transaction passes the pool's own checks against the chain state. */
    function Validate(tx: Tx, local: bool): (err: Option<Error>)
      reads this
      ensures err == None ==> Admissible(tx, Chain(), config.usingOVM)
    {
      AcceptedIsAdmissible(tx, local || tx.from in locals, Chain(), gasPrice, config.usingOVM);
      Check(tx, local || tx.from in locals, Chain(), gasPrice, config.usingOVM)
    }

    /** The pool's limit, on transactions and on data slots. */
    function Limit(): int {
      config.globalSlots + config.globalQueue
    }

    predicate Full()
      reads this, all
    {
      |all.all| >= Limit()
    }

    /** Whether a full pool turns `tx` away: it is remote and no dearer than anything pooled. */
    ghost predicate TurnedAway(tx: Tx, local: bool)
      reads this, all
    {
      Full() && !local && tx.from !in locals && all.all != map[] && forall t :: Live(all.all, t) ==> tx.price <= t.price
    }

    lemma SlotsCounted()
      requires all.Valid()
      ensures all.slots == Slots(all.all)
    {
    }

    /** Removes transactions that already left the price heap. */
    method DropAll(drop: seq<Tx>)
      requires State({}, drop) && forall t :: t in drop ==> Live(all.all, t) && t.from !in locals
      modifies this`pending, this`queue, this`beats, this`pendingNonces, all, priced
      ensures Valid()
      ensures forall t :: Live(all.all, t) <==> Live(old(all.all), t) && t !in drop
      ensures all.slots == old(all.slots) - Freed(drop)
      ensures Receded(old(Now()), Now()) && Shrunk(old(pending), pending, locals)
    {
      hide Inv, TxPricedList.Valid, Hashed, Freed, HashesOf, Sum, Follows, Without, Receded, Shrunk;
      RoomMade(all.all, drop);
      assert drop[0..] == drop;
      NothingHashed(all.all);
      RecededNot(Now(), Now());
      NothingShrunk(pending, locals);
      for i := 0 to |drop|
        invariant State({}, drop[i..])
        invariant all.all == old(all.all) - HashesOf(drop[..i])
        invariant Receded(old(Now()), Now()) && Shrunk(old(pending), pending, locals)
      {
        ghost var v := Now();
        RemoveTx(HashOf(drop[i]), false, drop[i..]);
        HashesStep(old(all.all), drop, i);
        RecededTwice(old(Now()), v, Now());
        ShrunkTwice(old(pending), v.pending, pending, locals);
        NowOut(priced.items, all.all, drop, i);
      }
      assert drop[|drop|..] == [] && drop[..|drop|] == drop;
      HashesLive(old(all.all), drop);
    }

    /**
     Evicts cheap remote transactions, no more than needed: enough for `tx` to fit or all of them, if
     no pooled transaction has two entries in the price heap.
     */
    method Evict(tx: Tx)
      requires Valid()
      modifies this`pending, this`queue, this`beats, this`pendingNonces, all, priced
      ensures Valid()
      ensures Cleared(old(all.all), all.all, tx, locals, Limit())
      ensures Receded(old(Now()), Now()) && Shrunk(old(pending), pending, locals)
      ensures old(NoDoubles(priced.items, all.all)) ==>
                all.slots + tx.NumSlots() <= Limit() || forall t :: Live(all.all, t) ==> t.from in locals
    {
      hide Inv, TxLookup.Valid, TxPricedList.Valid, NoDoubles, Distinct, Cleared, SeqSlots, Freed, Slots, Receded,
        Shrunk;
      SlotsCounted();
      var drop := priced.Discard(all.slots - Limit() + tx.NumSlots(), locals);
      ghost var items := priced.items;
      assert Discarded(drop, items, all.all, locals, all.slots - Limit() + tx.NumSlots());
      hide CoversAllBut, Discarded;
      DropAll(drop);
      SlotsCounted();
      ClearedBy(old(all.all), all.all, tx, locals, Limit(), drop, items);
    }

    /** When the pool is full, refuses the cheapest newcomer and otherwise evicts. */
    method MakeRoom(tx: Tx, local: bool) returns (err: Option<Error>)
      requires Valid()
      modifies this`pending, this`queue, this`beats, this`pendingNonces, all, priced
      ensures Valid()
      ensures err == if old(TurnedAway(tx, local)) then Some(Underpriced) else None
      ensures err.Some? || !old(Full()) ==> pending == old(pending) && queue == old(queue) && all.all == old(all.all)
      ensures Cleared(old(all.all), all.all, tx, locals, Limit())
      ensures Receded(old(Now()), Now()) && Shrunk(old(pending), pending, locals)
      ensures err == None && old(Full()) && old(NoDoubles(priced.items, all.all)) ==>
                all.slots + tx.NumSlots() <= Limit() || forall t :: Live(all.all, t) ==> t.from in locals
    {
      hide Inv, TxLookup.Valid, TxPricedList.Valid, Cleared, Receded, Shrunk;
      NoneCleared(all.all, tx, locals, Limit());
      RecededNot(Now(), Now());
      NothingShrunk(pending, locals);
      err := None;
      if !Full() {
        return;
      }
      if !local {
        var cheap := priced.Underpriced(tx, locals);
        if cheap {
          return Some(Underpriced);
        }
      }
      Evict(tx);
    }

    /** Replaces a pending transaction of the same nonce, if `tx` is dear enough. */
    method ReplacePending(tx: Tx) returns (err: Option<Error>)
      requires Valid() && !Live(all.all, tx) && !NonceFree(pending, tx)
      modifies this`pending, all, priced
      ensures Valid()
      ensures err == if Get(old(pending), tx.from, true).Accepts(tx, config.priceBump) then None
                     else Some(ReplaceUnderpriced)
      ensures pending == if err == None then Put(old(pending), true, tx) else old(pending)
      ensures all.all == if err == None then Swapped(old(all.all), old(pending), tx) else old(all.all)
    {
      var list := pending[tx.from];
      if !list.Accepts(tx, config.priceBump) {
        return Some(ReplaceUnderpriced);
      }
      SlotElsewhere(pending, queue, tx);
      PromoteKeepsInv(pending, queue, all.all, {}, tx);
      assert In(pending, list.items[tx.nonce]);
      hide Inv;
      var prior := Some(list.items[tx.nonce]);
      pending := pending[tx.from := list.Add(tx)];
      Register(prior, tx, []);
      return None;
    }

    /**
     Puts a validated transaction on its list, over a pending one of the same nonce or else on the
     queue. It is accepted exactly when it outbids whoever holds its slot, whose place it then takes.
     */
    method Place(tx: Tx, local: bool) returns (replaced: bool, err: Option<Error>)
      requires Valid() && !Live(all.all, tx)
      modifies this`locals, this`pending, this`queue, all, priced
      ensures Valid()
      ensures err == if OutbidsSlot(old(all.all), tx, config.priceBump) then None else Some(ReplaceUnderpriced)
      ensures Placed(old(all.all), all.all, tx, err == None)
      ensures pending == if err == None && !NonceFree(old(pending), tx) then Put(old(pending), true, tx)
                         else old(pending)
      ensures queue == if err == None && NonceFree(old(pending), tx) then Put(old(queue), false, tx) else old(queue)
      ensures replaced <==> err == None && exists t :: Live(old(all.all), t) && SameSlot(t, tx)
      ensures locals == if local && err == None && In(queue, tx) then old(locals) + {tx.from} else old(locals)
      ensures err == None && !replaced ==> In(queue, tx)
      ensures all.slots <= old(all.slots) + tx.NumSlots() && pending.Keys == old(pending).Keys
    {
      hide Inv, CoversAllBut, TxPricedList.Valid, Put, Sound, Apart, List.Add, OutbidsSlot, List.Accepts, Swapped, In;
      ghost var lists := SlotList(pending, queue, tx);
      PlacedIn(pending, queue, all.all, tx, config.priceBump);
      PlacedWhere(pending, queue, all.all, tx);
      SwappedSlots(all.all, lists, tx);
      PutKeys(pending, tx);
      ghost var none: set<Tx> := {};
      assert none - {tx} == none;
      if !NonceFree(pending, tx) {
        err := ReplacePending(tx);
        return err == None, err;
      }
      replaced, err := EnqueueTx(tx, {}, []);
      if err != None {
        return false, err;
      }
      if local {
        locals := locals + {tx.from};
      }
    }

    /**
     Adds a transaction. While the pool has room it is accepted exactly when it is new, valid and
     outbids whoever holds its slot, and a refusal changes nothing; a full pool makes room first.
     An accepted transaction is alone in its slot. Whatever else leaves was evicted: it is remote,
     no remote that stays is cheaper, and no more than needed left.
     */
    method Add(tx: Tx, local: bool) returns (replaced: bool, err: Option<Error>)
      requires Valid()
      modifies this`locals, this`pending, this`queue, this`beats, this`pendingNonces, all, priced
      ensures Valid()
      ensures Live(old(all.all), tx) ==> err == Some(KnownTransaction)
      ensures !Live(old(all.all), tx) && old(Validate(tx, local)).Some? ==> err == old(Validate(tx, local))
      ensures !Live(old(all.all), tx) && old(Validate(tx, local)) == None ==>
                err == if old(TurnedAway(tx, local)) then Some(Underpriced)
                       else if SlotTaken(all.all, tx, config.priceBump) then Some(ReplaceUnderpriced) else None
      ensures !Live(old(all.all), tx) && old(Validate(tx, local)) == None && !old(Full()) ==>
                (err == None <==> OutbidsSlot(old(all.all), tx, config.priceBump))
      ensures err != None && (!old(Full()) || err != Some(ReplaceUnderpriced)) ==>
                pending == old(pending) && queue == old(queue) && all.all == old(all.all)
      ensures err == None ==> Live(all.all, tx) && forall t :: Live(all.all, t) && SameSlot(t, tx) ==> t == tx
      ensures err == None ==> old(Validate(tx, local)) == None
      ensures |old(all.all)| < config.globalSlots + config.globalQueue ==>
                forall d :: Live(old(all.all), d) && !Live(all.all, d) ==> err == None && SameSlot(d, tx)
      ensures !Live(old(all.all), tx) && old(Validate(tx, local)) == None && !local && tx.from !in old(locals) ==>
                |old(all.all)| >= config.globalSlots + config.globalQueue > 0 ==>
                (forall t :: Live(old(all.all), t) ==> tx.price <= t.price) ==> err == Some(Underpriced)
      ensures !old(Full()) ==>
                && pending == (if err == None && !NonceFree(old(pending), tx) then Put(old(pending), true, tx)
                               else old(pending))
                && queue == (if err == None && NonceFree(old(pending), tx) then Put(old(queue), false, tx)
                             else old(queue))
      ensures err == None || err == Some(ReplaceUnderpriced) ==>
                ClearedAndPlaced(old(all.all), all.all, tx, old(locals), Limit(), err == None)
      ensures forall t :: Live(all.all, t) ==> Live(old(all.all), t) || (t == tx && err == None)
      ensures Added(old(all.all), old(pending), all.all, pending, tx, err, replaced, old(locals), old(Full()))
      ensures forall d :: Live(old(all.all), d) && !Live(all.all, d) ==>
                (err == None && SameSlot(d, tx)) || (old(Full()) && EvictedFor(d, all.all, old(locals), tx))
      ensures locals == if local && err == None && In(queue, tx) then old(locals) + {tx.from} else old(locals)
      ensures err == None && !replaced ==> In(queue, tx)
      ensures |all.all| <= |old(all.all)| + 1
      ensures Receded(old(Now()), Now())
      ensures err == None && old(Full()) && old(NoDoubles(priced.items, all.all)) ==>
                all.slots <= Limit() || forall t :: Live(all.all, t) && t != tx ==> t.from in locals
    {
      hide Inv, CoversAllBut, TxLookup.Valid, TxPricedList.Valid, NoDoubles, Added, EvictedFor, Put, NonceFree, Check,
        Slots, Cleared, Receded, Shrunk, In, UnfitFor, OutbidsSlot, SlotTaken, Placed, ClearedAndPlaced, Payable,
        Admissible;
      ghost var v, all0, p0, q0, full := Now(), all.all, pending, queue, Full();
      RecededNot(v, v);
      if all.Get(HashOf(tx)).Some? {
        NotAdded(all0, p0, tx, Some(KnownTransaction), locals, full);
        return false, Some(KnownTransaction);
      }
      err := Validate(tx, local);
      if err.Some? {
        NotAdded(all0, p0, tx, err, locals, full);
        return false, err;
      }
      err := MakeRoom(tx, local);
      if err.Some? {
        NotAdded(all0, p0, tx, err, locals, full);
        return false, err;
      }
      ghost var roomy, p1, v1 := all.all, pending, Now();
      ClearedOnly(all0, roomy, tx, locals, Limit());
      replaced, err := Place(tx, local);
      RecededPlaced(v, v1, Now(), tx);
      AddedBy(all0, p0, q0, roomy, p1, all.all, pending, tx, err, replaced, old(locals), Limit(), full);
      PlacedMeaning(old(all.all), roomy, all.all, tx, config.priceBump, err == None, old(locals), Limit());
    }

    /** Whether adding `n` more transactions could find the pool full. */
    predicate Crowded(n: nat)
      reads this, all
    {
      |all.all| + n > Limit()
    }

    /**
     Adds a batch and says why each member got its answer. Everything new was accepted; everything
     accepted is still there, lost its slot to a later one of the batch, or was evicted; everything
     that left made way for an accepted transaction or was evicted from a pool the batch could fill.
     The accounts to promote are those of the members that displaced nobody.
     */
    method AddTxsLocked(txs: seq<Tx>, local: bool) returns (errs: seq<Option<Error>>, dirty: set<Address>)
      requires Valid()
      modifies this`locals, this`pending, this`queue, this`beats, this`pendingNonces, all, priced
      ensures Valid() && |errs| == |txs|
      ensures LocalSoFar(old(all.all), txs, errs, local, old(locals), locals)
      ensures forall i | 0 <= i < |txs| ::
                Answered(old(all.all), txs, errs[..i], txs[i], errs[i], old(Validate(txs[i], local)),
                         old(Crowded(|txs|)) && txs[i].from !in old(locals), config.priceBump)
      ensures PooledSoFar(old(all.all), old(pending), txs, errs, old(locals), old(Crowded(|txs|)), all.all, pending)
      ensures DirtySoFar(old(all.all), txs, errs, old(Crowded(|txs|)), all.all, dirty)
      ensures Receded(old(Now()), Now())
    {
      hide Inv, CoversAllBut, TxLookup.Valid, TxPricedList.Valid, Gas.Intrinsic, Put, ClearedAndPlaced, NonceFree,
        Accepted, NoDoubles, Outbids, PooledSoFar, DirtySoFar, Added, Answered, Receded, In, Taken;
      errs, dirty := [], {};
      ghost var all0, p0, locals0, crowded := all.all, pending, locals, Crowded(|txs|);
      NothingAdded(all0, p0, txs, locals0, crowded);
      RecededNot(Now(), Now());
      for i := 0 to |txs|
        invariant Valid() && |errs| == i
        invariant locals0 <= locals && LocalSoFar(all0, txs, errs, local, locals0, locals)
        invariant |all.all| <= |all0| + i
        invariant forall k | 0 <= k < i ::
                    Answered(all0, txs, errs[..k], txs[k], errs[k], old(Validate(txs[k], local)),
                             crowded && txs[k].from !in locals0, config.priceBump)
        invariant PooledSoFar(all0, p0, txs, errs, locals0, crowded, all.all, pending)
        invariant DirtySoFar(all0, txs, errs, crowded, all.all, dirty)
        invariant Receded(old(Now()), Now())
      {
        ghost var before, p, v, locals', full := all.all, pending, Now(), locals, Full();
        assert Validate(txs[i], local) == old(Validate(txs[i], local));
        var replaced, err := Add(txs[i], local);
        AnsweredNow(all0, p0, txs, errs, locals0, crowded, before, p, all.all, err, old(Validate(txs[i], local)),
                    full && txs[i].from !in locals', config.priceBump);
        Appended(txs, errs, err);
        PooledStep(all0, p0, txs, errs, locals0, crowded, before, p, err, replaced, locals', full, all.all, pending);
        DirtyStep(all0, p0, txs, errs, locals0, crowded, before, p, err, replaced, locals', full, all.all, pending,
                  dirty);
        LocalStep(all0, p0, txs, errs, local, locals0, crowded, before, p, err, replaced, locals', full, all.all,
                  pending, locals);
        RecededTwice(old(Now()), v, Now());
        errs := errs + [err];
        if err == None && !replaced {
          dirty := dirty + {txs[i].from};
        }
      }
    }

    /** Raises the minimum price: exactly the cheaper remote transactions leave the pool. */
    method SetGasPrice(price: int)
      requires Valid()
      modifies this`gasPrice, this`pending, this`queue, this`beats, this`pendingNonces, all, priced
      ensures Valid() && gasPrice == price
      ensures forall t :: Live(all.all, t) <==> Live(old(all.all), t) && (t.from in locals || t.price >= price)
      ensures Receded(old(Now()), Now()) && Shrunk(old(pending), pending, locals)
    {
      hide Inv, TxLookup.Valid, TxPricedList.Valid, Receded, Shrunk;
      gasPrice := price;
      var drop := priced.Cap(price, locals);
      ghost var kept := priced.items;
      DropAll(drop);
      assert forall t :: Live(old(all.all), t) ==> t in kept || t in drop;
    }

    /** Applies both limits. Only remote transactions leave, and a list that could run still can. */
    method Truncate()
      requires Valid()
      modifies this`pending, this`queue, this`beats, this`pendingNonces, all, priced
      ensures Valid()
      ensures PendingCut(old(pending), locals, config, pending)
      ensures Total(old(queue)) <= config.globalQueue ==> queue == old(queue)
      ensures Total(old(queue)) > config.globalQueue ==> QueueCut(old(queue), beats, locals, queue)
      ensures beats == old(beats) && Receded(old(Now()), Now()) && pending.Keys == old(pending).Keys
      ensures Total(pending) <= config.globalSlots ||
              forall a | a in pending && a !in locals :: |pending[a].items| <= config.accountSlots
      ensures Total(queue) <= config.globalQueue || forall a | a in queue :: a in locals
      ensures forall t :: Live(all.all, t) ==> Live(old(all.all), t)
      ensures forall d :: Live(old(all.all), d) && !Live(all.all, d) ==>
                d.from !in locals && (Len(pending, d.from) >= config.accountSlots || Total(queue) >= config.globalQueue)
      ensures queue == old(queue) || Total(queue) >= config.globalQueue
      ensures old(AllRunnable()) ==> AllRunnable()
    {
      hide Inv, CoversAllBut, TxLookup.Valid, TxPricedList.Valid, Total, Runnable, Lowest, CapAll, WaterLevel,
        Levelled, QueueCut, Receded;
      ghost var p, q, known := pending, queue, all.all;
      ListsKeyed(pending, queue, all.all);
      TruncatePending();
      CutKeys(p, locals, config, pending);
      LimitReached(p, locals, config, pending);
      ghost var v := Now();
      forall a | a in pending
        ensures a in p && (Runnable(p[a], StateNonce(a), StateBalance(a), currentMaxGas) ==>
                Runnable(pending[a], StateNonce(a), StateBalance(a), currentMaxGas))
      {
        StillRunnable(p, locals, config.accountSlots, pending, a, StateNonce(a), StateBalance(a), currentMaxGas);
      }
      TruncateQueue();
      RecededNot(v, Now());
      RecededTwice(old(Now()), v, Now());
      LimitsOnlyDrop(p, q, known, pending, queue, all.all, locals, config.accountSlots, old(beats));
      forall d | Live(known, d) && !Live(all.all, d)
        ensures d.from !in locals && (Len(pending, d.from) >= config.accountSlots || Total(queue) >= config.globalQueue)
      {
        LimitsLeave(p, q, known, pending, queue, all.all, locals, config.accountSlots, old(beats), d);
      }
    }

    /**
     Takes over the chain state of a new head and adds the reorged transactions again. They are checked
     against the new state, but still by the old fork's rules for intrinsic gas.
     */
    method Reset(head: ChainState, reinject: seq<Tx>)
      requires Valid()
      modifies this, all, priced
      ensures Valid() && locals == old(locals) && gasPrice == old(gasPrice) && Chain() == head
      ensures forall t :: Live(all.all, t) ==> Live(old(all.all), t) || t in reinject
      ensures forall r | r in reinject ::
                Homed(old(all.all), all.all, reinject, r,
                      Check(r, r.from in locals, head.(istanbul := old(istanbul)), gasPrice, config.usingOVM),
                      old(Crowded(|reinject|)) && r.from !in locals, config.priceBump)
      ensures forall d :: Live(old(all.all), d) && !Live(all.all, d) ==>
                Reinjected(reinject, d) || (d.from !in locals && old(Crowded(|reinject|)))
      ensures forall t :: In(old(pending), t) ==>
                In(pending, t) || Reinjected(reinject, t) || (t.from !in locals && old(Crowded(|reinject|)))
      ensures forall t :: In(pending, t) ==> In(old(pending), t) || t in reinject
      ensures forall a, n: Uint64 | Taken(old(pending), a, n) && !Taken(pending, a, n) ::
                a !in locals && old(Crowded(|reinject|))
      ensures Receded(old(Now()).(nonces := map[], chain := head), Now())
    {
      hide Inv, CoversAllBut, TxLookup.Valid, TxPricedList.Valid, Answered, Reinjected, PooledSoFar, DirtySoFar,
        Homed, Check, Heard, In, Receded, Taken;
      ghost var all0, p0, crowded := all.all, pending, Crowded(|reinject|);
      ghost var checked := head.(istanbul := istanbul);
      stateNonces, stateBalances := head.nonces, head.balances;
      currentMaxGas, pendingNonces := head.gasLimit, map[];
      ghost var v := Now();
      var errs, dirty := AddTxsLocked(reinject, false);
      RecededFork(v, Now(), head);
      LeftForBatch(all0, p0, reinject, errs, locals, crowded, all.all, pending);
      MembersHomed(all0, p0, reinject, errs, locals, crowded, all.all, pending, checked, gasPrice, config.usingOVM,
                   config.priceBump);
      istanbul := head.istanbul;
    }

    /** Updates the virtual nonce of every pending account to the one after its last transaction. */
    method SetPendingNonces()
      requires Valid()
      modifies this`pendingNonces
      ensures forall a | a in pending :: NextAfter(pending[a].items, PendingNonce(a))
      ensures forall a | a !in pending :: PendingNonce(a) == old(PendingNonce(a))
    {
      hide Inv, CoversAllBut, TxLookup.Valid, TxPricedList.Valid, NextAfter, Wrap, Keyed, Listing;
      var rest := pending.Keys;
      while rest != {}
        invariant rest <= pending.Keys
        invariant forall a | a in pending && a !in rest :: NextAfter(pending[a].items, PendingNonce(a))
        invariant forall a | a !in pending :: PendingNonce(a) == old(PendingNonce(a))
        decreases |rest|
      {
        var a :| a in rest;
        PendingKeyed(pending, queue, all.all, a);
        var txs := SortedContents(pending[a].items);
        EmptyRun(txs, pending[a].items);
        LastIsNext(pending[a].items, txs);
        pendingNonces := pendingNonces[a := Wrap(txs[|txs| - 1].nonce + 1)];
        rest := rest - {a};
      }
    }

    /** The second half of the background step: both limits, then the virtual nonces of all pending accounts. */
    method ApplyLimits()
      requires Valid()
      modifies this`pending, this`queue, this`beats, this`pendingNonces, all, priced
      ensures Valid() && pending.Keys == old(pending).Keys && beats == old(beats)
      ensures PendingCut(old(pending), locals, config, pending)
      ensures Total(old(queue)) <= config.globalQueue ==> queue == old(queue)
      ensures Total(old(queue)) > config.globalQueue ==> QueueCut(old(queue), beats, locals, queue)
      ensures Total(pending) <= config.globalSlots ||
              forall a | a in pending && a !in locals :: |pending[a].items| <= config.accountSlots
      ensures Total(queue) <= config.globalQueue || forall a | a in queue :: a in locals
      ensures forall a | a in pending :: NextAfter(pending[a].items, PendingNonce(a))
      ensures forall a | a !in pending :: PendingNonce(a) == old(PendingNonce(a))
      ensures forall t :: Live(all.all, t) ==> Live(old(all.all), t)
      ensures forall d :: Live(old(all.all), d) && !Live(all.all, d) ==>
                d.from !in locals && (Len(pending, d.from) >= config.accountSlots || Total(queue) >= config.globalQueue)
      ensures queue == old(queue) || Total(queue) >= config.globalQueue
      ensures old(AllRunnable()) ==> AllRunnable()
      ensures old(AllGapless(Now()) && NoLast(all.all)) ==> AllGapless(Now())
    {
      hide Inv, CoversAllBut, TxLookup.Valid, TxPricedList.Valid, Total, Len, PendingCut, QueueCut, Receded,
        AllGapless, NextAfter, Runnable, NoLast;
      ghost var fit, known := Now(), all.all;
      Truncate();
      ghost var cut := Now();
      NoneGone(fit, cut);
      SetPendingNonces();
      if old(AllGapless(Now()) && NoLast(all.all)) {
        CutGapless(fit, known, locals, config, Now());
      }
    }

    /** The first half of the background step, part two: promote and, after a new head, demote. */
    method Rearrange(reset: bool, dirty: seq<Address>, clock: Address -> int) returns (ghost promoted: Lists)
      requires Valid()
      modifies this`pending, this`queue, this`beats, this`pendingNonces, all, priced
      ensures Valid() && all.all.Keys <= old(all.all.Keys)
      ensures Rearranged(old(Now()), Settings(), reset, dirty, clock, promoted, Now())
      ensures if reset then AllRunnable() else forall a | a in dirty :: Settled(a)
      ensures forall d :: Live(old(all.all), d) && !Live(all.all, d) ==> Dropped(d)
      ensures !reset && old(AllGapless(Now()) && NoLast(all.all)) ==> AllGapless(Now())
    {
      hide Inv, CoversAllBut, TxLookup.Valid, TxPricedList.Valid, UnfitFor, Waiting, Runnable, Stays, Falls, Len, In,
        Get, Holds, View.Executables, View.Leftover, PendingGains, ListsSettle, HeartbeatsMove, NoncesMove, Beat,
        Heard, Advanced, AllGapless, NoLast, Sound;
      ghost var start := Now();
      var accounts := dirty;
      if reset {
        accounts := Addresses(queue);
      }
      PromoteExecutables(accounts, clock);
      promoted := pending;
      ghost var q, beats1, known := queue, beats, all.all;
      if reset {
        DemoteUnexecutables();
        forall a
          ensures Len(q, a) <= Len(queue, a)
        {
          QueueGrows(promoted, q, known, pending, queue, all.all, a);
        }
      }
      GainsBy(start, reset, dirty, accounts, promoted);
      SettleBy(start, Settings(), reset, dirty, accounts, promoted, q, Now());
      HeardBy(start, reset, dirty, accounts, clock, promoted, beats1, Now());
      NoncesBy(start, reset, dirty, accounts, Now());
      if !reset && old(AllGapless(Now()) && NoLast(all.all)) {
        PendingSound(pending, queue, all.all);
        PromotedGapless(start, old(all.all), Settings(), dirty, clock, promoted, Now());
      }
    }

    /** Why promotion or demotion may drop `d`; the count is that after the step. */
    ghost predicate Dropped(d: Tx)
      reads this
    {
      NotFit(d) || (d.from !in locals && Len(queue, d.from) >= config.accountQueue)
    }

    /** Why the first half of the background step may drop `d`. */
    ghost predicate Reorged(d: Tx, reset: bool, reinject: seq<Tx>, crowded: bool)
      reads this
    {
      Dropped(d) || (reset && (Reinjected(reinject, d) || (d.from !in locals && crowded)))
    }

    /** The first half of the background step; `start` is the pool after the reset. */
    method Refresh(reset: Option<ChainState>, reinject: seq<Tx>, dirty: seq<Address>, clock: Address -> int)
      returns (ghost start: View, ghost promoted: Lists)
      requires Valid()
      modifies this, all, priced
      ensures Valid() && Settings() == old(Settings())
      ensures if reset == None then start == old(Now())
              else ResetTo(old(Now()), old(all.all), Settings(), old(Crowded(|reinject|)), reset.value, reinject, start)
      ensures Rearranged(start, Settings(), reset.Some?, dirty, clock, promoted, Now()) && Sound(start.queue, false)
      ensures if reset.Some? then AllRunnable() else forall a | a in dirty :: Settled(a)
      ensures forall t :: Live(all.all, t) ==> Live(old(all.all), t) || (reset.Some? && t in reinject)
      ensures forall d :: Live(old(all.all), d) && !Live(all.all, d) ==>
                Reorged(d, reset.Some?, reinject, old(Crowded(|reinject|)))
      ensures reset == None && old(AllGapless(Now()) && NoLast(all.all)) ==> AllGapless(Now())
    {
      hide Inv, CoversAllBut, TxLookup.Valid, TxPricedList.Valid, Dropped, Settled, AllRunnable, Rearranged, ResetTo,
        Reinjected, Homed, Check, Heard, In, Receded, Taken, AllGapless, NoLast;
      ghost var before, all0, crowded := Now(), all.all, Crowded(|reinject|);
      if reset.Some? {
        Reset(reset.value, reinject);
        ResetBy(before, all0, Settings(), crowded, reset.value, reinject, Now(), all.all);
      }
      start := Now();
      QueueSound(pending, queue, all.all);
      promoted := Rearrange(reset.Some?, dirty, clock);
    }

    /**
     The pool's background step: after a new head the chain state is replaced, reorged
     transactions come back, and every account is promoted and demoted; then both limits apply.
     A transaction is dropped because it is unfit, because a reorged one took its slot, or, if it
     is remote, because a limit is reached. After a new head every pending list can run.

     `start` is the pool after the reset, `promoted` are the pending lists before demotion, and `fit` is the
     pool before the limits. These cut pending to the water level, and the queue by the heartbeats.
     */
    method RunReorg(reset: Option<ChainState>, reinject: seq<Tx>, dirty: seq<Address>, clock: Address -> int)
      returns (ghost start: View, ghost promoted: Lists, ghost fit: View)
      requires Valid()
      modifies this, all, priced
      ensures Valid() && Settings() == old(Settings()) && Chain() == start.chain == fit.chain && beats == fit.beats
      ensures if reset == None then start == old(Now())
              else ResetTo(old(Now()), old(all.all), Settings(), old(Crowded(|reinject|)), reset.value, reinject, start)
      ensures Rearranged(start, Settings(), reset.Some?, dirty, clock, promoted, fit)
      ensures PendingCut(fit.pending, locals, config, pending)
      ensures if Total(fit.queue) <= config.globalQueue then queue == fit.queue
              else QueueCut(fit.queue, beats, locals, queue)
      ensures reset.Some? ==> AllRunnable()
      ensures Total(pending) <= config.globalSlots ||
              forall a | a in pending && a !in locals :: |pending[a].items| <= config.accountSlots
      ensures Total(queue) <= config.globalQueue || forall a | a in queue :: a in locals
      ensures forall a | a in pending :: NextAfter(pending[a].items, PendingNonce(a))
      ensures forall a | a !in pending :: PendingNonce(a) == fit.Next(a)
      ensures reset == None ==> forall a | a !in pending :: PendingNonce(a) == old(PendingNonce(a))
      ensures reset == None && old(AllGapless(Now()) && NoLast(all.all)) ==> AllGapless(Now())
      ensures forall t :: Live(all.all, t) ==> Live(old(all.all), t) || (reset.Some? && t in reinject)
      ensures forall d :: Live(old(all.all), d) && !Live(all.all, d) ==>
                || Reorged(d, reset.Some?, reinject, old(Crowded(|reinject|)))
                || (d.from !in locals &&
                    (Len(pending, d.from) >= config.accountSlots || Total(queue) >= config.globalQueue))
    {
      hide Inv, CoversAllBut, TxLookup.Valid, TxPricedList.Valid, Total, NextAfter, UnfitFor, Runnable, Len,
        Reinjected, PendingCut, QueueCut, ResetTo, In, Rearranged, Settled, AllGapless, Sound;
      start, promoted := Refresh(reset, reinject, dirty, clock);
      fit := Now();
      ApplyLimits();
      NotPending(start, Settings(), reset.Some?, dirty, clock, promoted, fit);
      RearrangedChain(start, Settings(), reset.Some?, dirty, clock, promoted, fit);
    }

    lemma BooksMeaning()
      requires Valid()
      ensures all.slots == Sum(all.all.Keys, HashSlots)
      ensures forall t :: Live(all.all, t) ==> t in priced.items
    {
    }

    /** One pool operation. While no new head arrives, it leaves every pending list gapless. */
    method Step(op: PoolOp)
      requires Valid()
      modifies this, all, priced
      ensures Valid() && Stepped(op, old(Snap()), Snap())
      ensures Calm(op) && old(AllGapless(Now()) && NoLast(all.all)) ==> AllGapless(Now()) && NoLast(all.all)
    {
      hide Inv, CoversAllBut, TxLookup.Valid, TxPricedList.Valid, Total, NextAfter, PendingCut, QueueCut, Runnable,
        AllGapless, Receded, Answered, DirtySoFar, LocalSoFar, Rearranged, ResetTo, Shrunk, PooledSoFar, Stepped,
        QueueLimited;
      ghost var s, v := Snap(), Now();
      match op {
        case AddTxs(txs, local) => AddAll(txs, local);
        case RemoveOne(hash) =>
          RemoveTx(hash, true, []);
          RemovesBy(s, hash, Snap());
        case Reprice(price) =>
          SetGasPrice(price);
          RepricesBy(s, price, Snap());
        case Reorg(reset, reinject, dirty, clock) =>
          ghost var start, promoted, fit;
          start, promoted, fit := RunReorg(reset, reinject, dirty, clock);
          LimitedBy(fit.queue, beats, s.setting, queue);
          ReorgsBy(s, reset, reinject, dirty, clock, start, promoted, fit, Snap());
      }
      if AllGapless(v) && Receded(v, Now()) {
        RecededGapless(v, Now());
      }
    }

    /** Adds a batch, as one step. */
    method AddAll(txs: seq<Tx>, local: bool)
      requires Valid()
      modifies this`locals, this`pending, this`queue, this`beats, this`pendingNonces, all, priced
      ensures Valid() && Stepped(AddTxs(txs, local), old(Snap()), Snap()) && Receded(old(Now()), Now())
      ensures (forall t | t in txs :: t.nonce < Gas.MAX_UINT64) && NoLast(old(all.all)) ==> NoLast(all.all)
    {
      hide Inv, CoversAllBut, TxLookup.Valid, TxPricedList.Valid, Receded, Answered, DirtySoFar, LocalSoFar,
        PooledSoFar, Stepped, NoLast;
      ghost var s, crowded := Snap(), Crowded(|txs|);
      var errs, dirty := AddTxsLocked(txs, local);
      AddsBy(s, txs, local, errs, Snap());
      if (forall t | t in txs :: t.nonce < Gas.MAX_UINT64) && NoLast(s.all) {
        StillNoLast(s.all, s.view.pending, txs, errs, s.setting.locals, crowded, all.all, pending);
      }
    }

    /**
     Any sequence of pool operations: the lookup is exactly the disjoint union of the pending and
     queued transactions, no account holds a nonce in both or an empty list, the slot count is the
     sum of the slots, and the price heap covers every pooled transaction. While no new head arrives, every
     pending list stays a run without gaps from the account's chain nonce to its virtual nonce. `trace` is
     what the pool went through, step by step.
     */
    method Run(ops: seq<PoolOp>) returns (ghost trace: seq<Snapshot>)
      requires Valid()
      modifies this, all, priced
      ensures Valid() && |trace| == |ops| + 1 && trace[0] == old(Snap()) && trace[|ops|] == Snap()
      ensures forall i :: 0 <= i < |ops| ==> Stepped(ops[i], trace[i], trace[i + 1])
      ensures forall t :: Live(all.all, t) <==> In(pending, t) || In(queue, t)
      ensures forall t :: !(In(pending, t) && In(queue, t))
      ensures forall a, n | a in pending && a in queue && n in pending[a].items :: n !in queue[a].items
      ensures forall a | a in pending :: pending[a].items != map[]
      ensures forall a | a in queue :: queue[a].items != map[]
      ensures all.slots == Sum(all.all.Keys, HashSlots)
      ensures forall t :: Live(all.all, t) ==> t in priced.items
      ensures old(AllGapless(Now()) && NoLast(all.all)) && (forall op | op in ops :: Calm(op)) ==> AllGapless(Now())
    {
      hide Inv, CoversAllBut, TxLookup.Valid, TxPricedList.Valid, AllGapless, NoLast, Calm, Stepped, Sum, In, Live;
      trace := [Snap()];
      for i := 0 to |ops|
        invariant Valid() && |trace| == i + 1 && trace[0] == old(Snap()) && trace[i] == Snap()
        invariant forall k :: 0 <= k < i ==> Stepped(ops[k], trace[k], trace[k + 1])
        invariant old(AllGapless(Now()) && NoLast(all.all)) && (forall op | op in ops[..i] :: Calm(op)) ==>
                    AllGapless(Now()) && NoLast(all.all)
      {
        assert ops[i] in ops[..i + 1] && forall op | op in ops[..i] :: op in ops[..i + 1];
        Step(ops[i]);
        trace := trace + [Snap()];
      }
      assert ops[..|ops|] == ops;
      InvMeaning(pending, queue, all.all);
      BooksMeaning();
    }
  }
}
