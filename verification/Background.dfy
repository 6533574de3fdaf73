/**
 What the pool's background step (l2geth/core/tx_pool.go, runReorg) does before the limits apply, stated
 on plain values: the reset to a new head, then promotion and demotion.
 */
module Background {
  import opened Wrappers
  import opened Transactions
  import opened SortedMap
  import opened TxLists
  import opened PricedList
  import opened PoolState
  import opened PoolSteps
  import opened Truncation
  import opened QueueTruncation
  import opened Batches
  import opened Promotion
  import opened Demotion

  /** The parts of the pool that no background step changes. */
  datatype Setting = Setting(config: Config, locals: set<Address>, gasPrice: int)

  /** A reorged transaction does not pass the pool's checks any more. */
  predicate Rejected(setting: Setting, chain: ChainState, r: Tx) {
    Check(r, r.from in setting.locals, chain, setting.gasPrice, setting.config.usingOVM).Some?
  }

  /** What a reset to a new head makes of the pool: the chain state, the heartbeats, and who comes or goes. */
  ghost predicate ResetTo(before: View, all0: Lookup, setting: Setting, crowded: bool, head: ChainState,
                          reinject: seq<Tx>, after: View) {
    && Receded(before.(nonces := map[], chain := head), after)
    && (forall t :: In(after.pending, t) ==> In(before.pending, t) || t in reinject)
    && (forall t :: In(before.pending, t) ==>
          In(after.pending, t) || Reinjected(reinject, t) || (t.from !in setting.locals && crowded))
    && (forall a, n: Uint64 | Taken(before.pending, a, n) && !Taken(after.pending, a, n) ::
          a !in setting.locals && crowded)
    && (forall t :: In(after.pending, t) || In(after.queue, t) ==> Live(all0, t) || t in reinject)
    && (forall d :: Live(all0, d) && !In(after.pending, d) && !In(after.queue, d) ==>
          Reinjected(reinject, d) || (d.from !in setting.locals && crowded))
    && (forall r | r in reinject && !In(after.pending, r) && !In(after.queue, r) ::
          || Rejected(setting, head.(istanbul := before.chain.istanbul), r)
          || SlotTaken(all0, r, setting.config.priceBump) || Reinjected(reinject, r)
          || (crowded && r.from !in setting.locals))
  }

  /** A new head concerns all accounts, otherwise only those with news are promoted. */
  predicate Concerns(reset: bool, dirty: seq<Address>, a: Address) {
    reset || a in dirty
  }

  /** What promotion leaves in an account's queue. */
  function LeftIn(start: View, setting: Setting, a: Address): Items {
    start.Leftover(a, a in setting.locals, setting.config.accountQueue)
  }

  // ---------- promotion, account by account ----------

  /** What an account's queue holds has to wait. */
  ghost predicate SettledIn(v: View, a: Address) {
    Waiting(Get(v.queue, a, false).items, v.chain.Nonce(a), v.chain.Balance(a), v.chain.gasLimit, v.Next(a))
  }

  /** One account's turn in promoteExecutables. */
  ghost predicate TurnTaken(v: View, setting: Setting, now: int, a: Address, v': View) {
    && v'.chain == v.chain
    && (forall t :: In(v'.pending, t) <==> In(v.pending, t) || (t.from == a && Holds(v.Executables(a), t)))
    && Get(v'.queue, a, false).items == LeftIn(v, setting, a)
    && (forall b | b != a :: Get(v'.queue, b, false) == Get(v.queue, b, false) && v'.Next(b) == v.Next(b))
    && v'.beats == (if v.Executables(a) == map[] then v.beats else v.beats[a := now])
    && Advanced(v.Executables(a), v.Next(a), v'.Next(a))
    && SettledIn(v', a) && (a !in setting.locals ==> |LeftIn(v, setting, a)| <= setting.config.accountQueue)
  }

  /** The accounts in `done` had their turn, some perhaps more than once; the others are untouched. */
  ghost predicate PromotedIn(v0: View, setting: Setting, clock: Address -> int, done: set<Address>, v: View) {
    && v.chain == v0.chain
    && (forall t :: In(v.pending, t) <==> In(v0.pending, t) || (t.from in done && Holds(v0.Executables(t.from), t)))
    && (forall a | a in done :: SettledIn(v, a) && Get(v.queue, a, false).items == LeftIn(v0, setting, a))
    && (forall a | a in done && a !in setting.locals :: |LeftIn(v0, setting, a)| <= setting.config.accountQueue)
    && (forall a | a !in done :: Get(v.queue, a, false) == Get(v0.queue, a, false) && v.Next(a) == v0.Next(a))
    && (forall a :: Beat(v.beats, a) == if a in done && v0.Executables(a) != map[] then clock(a) else Beat(v0.beats, a))
    && (forall a | a in done :: Advanced(v0.Executables(a), v0.Next(a), v.Next(a)))
  }

  lemma NonePromoted(v: View, setting: Setting, clock: Address -> int)
    ensures PromotedIn(v, setting, clock, {}, v)
  {
  }

  /** An account's turn depends on nothing but its own queue, its virtual nonce and the chain state. */
  lemma SameTurn(v: View, v': View, setting: Setting, a: Address)
    requires v'.chain == v.chain && Get(v'.queue, a, false) == Get(v.queue, a, false) && v'.Next(a) == v.Next(a)
    ensures v'.Executables(a) == v.Executables(a) && LeftIn(v', setting, a) == LeftIn(v, setting, a)
    ensures SettledIn(v', a) <==> SettledIn(v, a)
  {
  }

  lemma SettledTurn(v: View, all: Lookup, setting: Setting, a: Address)
    requires Inv(v.pending, v.queue, all, {}) && SettledIn(v, a)
    requires a in setting.locals || |Get(v.queue, a, false).items| <= setting.config.accountQueue
    ensures v.Executables(a) == map[] && LeftIn(v, setting, a) == Get(v.queue, a, false).items
  {
    if a in v.queue {
      SecondTurn(v.queue[a], a, v.chain.Nonce(a), v.chain.Balance(a), v.chain.gasLimit, v.Next(a), a in setting.locals,
                 setting.config.accountQueue);
    } else {
      NotQueued(v, a, a in setting.locals, setting.config.accountQueue);
    }
  }

  /** A first turn depends on the start alone. */
  lemma FirstTurn(v0: View, setting: Setting, clock: Address -> int, done: set<Address>, v: View, a: Address)
    requires PromotedIn(v0, setting, clock, done, v) && a !in done
    ensures v.Executables(a) == v0.Executables(a) && LeftIn(v, setting, a) == LeftIn(v0, setting, a)
  {
    SameTurn(v0, v, setting, a);
  }

  /** A further turn changes nothing. */
  lemma NextTurn(v0: View, setting: Setting, clock: Address -> int, done: set<Address>, v: View, all: Lookup,
                 a: Address)
    requires PromotedIn(v0, setting, clock, done, v) && a in done && Inv(v.pending, v.queue, all, {})
    ensures v.Executables(a) == map[] && LeftIn(v, setting, a) == LeftIn(v0, setting, a)
  {
    hide Inv, In, Get, Beat, SettledIn, LeftIn, View.Executables, View.Next;
    SettledTurn(v, all, setting, a);
  }

  lemma OthersSettled(v: View, setting: Setting, now: int, a: Address, v': View)
    requires TurnTaken(v, setting, now, a, v')
    ensures forall b | b != a :: SettledIn(v', b) <==> SettledIn(v, b)
  {
    hide In, Get, SettledIn, LeftIn, View.Executables, View.Next;
    forall b | b != a
      ensures SettledIn(v', b) <==> SettledIn(v, b)
    {
      SameTurn(v, v', setting, b);
    }
  }

  lemma BeatsStep(v0: View, setting: Setting, clock: Address -> int, done: set<Address>, v: View, a: Address, v': View)
    requires PromotedIn(v0, setting, clock, done, v) && TurnTaken(v, setting, clock(a), a, v')
    requires v.Executables(a) == if a in done then map[] else v0.Executables(a)
    ensures forall b :: Beat(v'.beats, b) ==
              if b in done + {a} && v0.Executables(b) != map[] then clock(b) else Beat(v0.beats, b)
  {
    hide In, Get, Beat, SettledIn, LeftIn, View.Executables, View.Next;
    BeatNow(v.beats, a, clock(a));
  }

  lemma PendingStep(v0: View, setting: Setting, clock: Address -> int, done: set<Address>, v: View, a: Address,
                    v': View)
    requires PromotedIn(v0, setting, clock, done, v) && TurnTaken(v, setting, clock(a), a, v')
    requires v.Executables(a) == if a in done then map[] else v0.Executables(a)
    ensures forall t :: In(v'.pending, t) <==>
              In(v0.pending, t) || (t.from in done + {a} && Holds(v0.Executables(t.from), t))
  {
    hide In, Get, Beat, SettledIn, LeftIn, View.Executables, View.Next;
  }

  lemma NextStep(v0: View, setting: Setting, clock: Address -> int, done: set<Address>, v: View, a: Address, v': View)
    requires PromotedIn(v0, setting, clock, done, v) && TurnTaken(v, setting, clock(a), a, v')
    requires v.Executables(a) == if a in done then map[] else v0.Executables(a)
    ensures forall b | b in done + {a} :: Advanced(v0.Executables(b), v0.Next(b), v'.Next(b))
    ensures forall b | b !in done + {a} :: v'.Next(b) == v0.Next(b)
  {
    hide In, Get, Beat, SettledIn, LeftIn, View.Executables, View.Next, NextAfter;
  }

  lemma PromoteStep(v0: View, setting: Setting, clock: Address -> int, done: set<Address>, v: View, all: Lookup,
                    a: Address, v': View)
    requires PromotedIn(v0, setting, clock, done, v) && Inv(v.pending, v.queue, all, {})
    requires TurnTaken(v, setting, clock(a), a, v')
    ensures PromotedIn(v0, setting, clock, done + {a}, v') && Get(v'.queue, a, false).items == LeftIn(v0, setting, a)
  {
    hide Inv, In, Get, Beat, SettledIn, LeftIn, View.Executables, View.Next, Advanced;
    if a in done {
      NextTurn(v0, setting, clock, done, v, all, a);
    } else {
      FirstTurn(v0, setting, clock, done, v, a);
    }
    BeatsStep(v0, setting, clock, done, v, a, v');
    OthersSettled(v, setting, clock(a), a, v');
    PendingStep(v0, setting, clock, done, v, a, v');
    NextStep(v0, setting, clock, done, v, a, v');
  }

  /** What promoting a queued list does, said of the whole pool. */
  lemma TurnBy(v: View, setting: Setting, now: int, a: Address, v': View, all: Lookup)
    requires Inv(v.pending, v.queue, all, {}) && a in v.queue && v'.chain == v.chain
    requires forall t :: In(v'.pending, t) <==> In(v.pending, t) || Holds(v.Executables(a), t)
    requires v'.queue == Turn(v.queue, a, v.chain.Nonce(a), v.chain.Balance(a), v.chain.gasLimit, v.Next(a),
                              a in setting.locals, setting.config.accountQueue)
    requires Waiting(Affordable(v.queue[a], v.chain.Nonce(a), v.chain.Balance(a),
                                v.chain.gasLimit).Ready(v.Next(a)).items,
                     v.chain.Nonce(a), v.chain.Balance(a), v.chain.gasLimit, v'.Next(a))
    requires forall b :: b != a ==> v'.Next(b) == v.Next(b)
    requires v'.beats == if v.Executables(a) == map[] then v.beats else v.beats[a := now]
    requires Advanced(v.Executables(a), v.Next(a), v'.Next(a))
    ensures TurnTaken(v, setting, now, a, v') && Len(v'.queue, a) == |LeftIn(v, setting, a)|
  {
    hide Inv, In, Ready, Affordable, Limited, List.Ready, Waiting, Advanced;
    QueuedList(v.pending, v.queue, all, a);
    RunHolds(v.queue[a], a, v.chain.Nonce(a), v.chain.Balance(a), v.chain.gasLimit, v.Next(a));
    TurnKeeps(v.queue, a, v.chain.Nonce(a), v.chain.Balance(a), v.chain.gasLimit, v.Next(a), a in setting.locals,
              setting.config.accountQueue);
    TurnWaits(v.queue, a, v.chain.Nonce(a), v.chain.Balance(a), v.chain.gasLimit, v.Next(a), a in setting.locals,
              setting.config.accountQueue, v'.Next(a));
    LenIsGet(v'.queue);
  }

  lemma NoTurn(v: View, setting: Setting, now: int, a: Address)
    requires a !in v.queue
    ensures TurnTaken(v, setting, now, a, v)
  {
    hide Ready, Affordable, Limited;
    NotQueued(v, a, a in setting.locals, setting.config.accountQueue);
    NothingWaits(v.chain.Nonce(a), v.chain.Balance(a), v.chain.gasLimit, v.Next(a));
  }

  lemma SameChain(v0: View, setting: Setting, clock: Address -> int, done: set<Address>, v: View, a: Address, v': View)
    requires PromotedIn(v0, setting, clock, done, v) && TurnTaken(v, setting, clock(a), a, v')
    ensures v'.chain == v0.chain && Get(v'.queue, a, false).items == LeftIn(v, setting, a)
  {
  }

  /** Why transactions left so far: they are unfit, or one too many in a remote account's queue. */
  ghost predicate LeftBy(v0: View, setting: Setting, done: set<Address>, all0: Lookup, all: Lookup) {
    && all.Keys <= all0.Keys
    && forall d :: Live(all0, d) && !Live(all, d) ==>
         || UnfitFor(v0.chain, d)
         || (d.from !in setting.locals && d.from in done &&
             |LeftIn(v0, setting, d.from)| >= setting.config.accountQueue)
  }

  lemma NoneLeft(v: View, setting: Setting, all: Lookup)
    ensures LeftBy(v, setting, {}, all, all)
  {
  }

  lemma LeftStep(v0: View, setting: Setting, done: set<Address>, all0: Lookup, all: Lookup, a: Address, all': Lookup)
    requires LeftBy(v0, setting, done, all0, all) && all'.Keys <= all.Keys
    requires forall d :: Live(all, d) && !Live(all', d) ==>
               d.from == a && (UnfitFor(v0.chain, d) ||
                               (a !in setting.locals && |LeftIn(v0, setting, a)| >= setting.config.accountQueue))
    ensures LeftBy(v0, setting, done + {a}, all0, all')
  {
    hide LeftIn, UnfitFor;
  }

  lemma PromotedAll(v0: View, setting: Setting, clock: Address -> int, accounts: seq<Address>, done: set<Address>,
                    v: View, all0: Lookup, all: Lookup)
    requires PromotedIn(v0, setting, clock, done, v) && LeftBy(v0, setting, done, all0, all)
    requires forall a :: a in done <==> a in accounts
    ensures all.Keys <= all0.Keys
    ensures forall t :: In(v.pending, t) <==>
              In(v0.pending, t) || (t.from in accounts && Holds(v0.Executables(t.from), t))
    ensures forall a :: Get(v.queue, a, false).items ==
              if a in accounts then LeftIn(v0, setting, a) else Get(v0.queue, a, false).items
    ensures forall a :: Beat(v.beats, a) ==
              if a in accounts && v0.Executables(a) != map[] then clock(a) else Beat(v0.beats, a)
    ensures forall a :: if a in accounts then Advanced(v0.Executables(a), v0.Next(a), v.Next(a))
                        else v.Next(a) == v0.Next(a)
    ensures forall a | a in accounts && a !in setting.locals :: Len(v.queue, a) <= setting.config.accountQueue
    ensures forall a | a in accounts :: SettledIn(v, a)
    ensures forall d :: Live(all0, d) && !Live(all, d) ==>
              || UnfitFor(v0.chain, d)
              || (d.from !in setting.locals && Len(v.queue, d.from) >= setting.config.accountQueue)
  {
    hide In, Get, Beat, SettledIn, LeftIn, View.Executables, View.Next, UnfitFor, Len, Advanced;
    LenIsGet(v.queue);
  }

  // ---------- the whole first half ----------

  /** Pending gains exactly what is executable in the accounts concerned. */
  ghost predicate PendingGains(start: View, reset: bool, dirty: seq<Address>, promoted: Lists) {
    forall t :: In(promoted, t) <==>
      In(start.pending, t) || (Concerns(reset, dirty, t.from) && Holds(start.Executables(t.from), t))
  }

  /**
   After a new head exactly the executable part of each pending list stays. The queue keeps exactly what
   promotion leaves, and gains what is cut off behind an executable part.
   */
  ghost predicate ListsSettle(start: View, setting: Setting, reset: bool, dirty: seq<Address>, promoted: Lists,
                              end: View) {
    if reset
    then && (forall t :: In(end.pending, t) <==> Stays(start.chain, promoted, t))
         && (forall t :: In(end.queue, t) <==>
               Holds(LeftIn(start, setting, t.from), t) || Falls(start.chain, promoted, t))
    else && end.pending == promoted
         && forall a :: Get(end.queue, a, false).items ==
              if a in dirty then LeftIn(start, setting, a) else Get(start.queue, a, false).items
  }

  /** Accounts that promote are heard of at that time; those that lose their last pending transaction are forgotten. */
  ghost predicate HeartbeatsMove(start: View, reset: bool, dirty: seq<Address>, clock: Address -> int, promoted: Lists,
                                 end: View) {
    forall a :: Beat(end.beats, a) ==
      if a in promoted && a !in end.pending then 0
      else if Concerns(reset, dirty, a) && start.Executables(a) != map[] then clock(a) else Beat(start.beats, a)
  }

  /** Virtual nonces follow what is promoted; demotion leaves them alone. */
  ghost predicate NoncesMove(start: View, reset: bool, dirty: seq<Address>, end: View) {
    forall a :: if Concerns(reset, dirty, a) then Advanced(start.Executables(a), start.Next(a), end.Next(a))
                else end.Next(a) == start.Next(a)
  }

  /** Promotion and, after a new head, demotion. */
  ghost predicate Rearranged(start: View, setting: Setting, reset: bool, dirty: seq<Address>, clock: Address -> int,
                             promoted: Lists, end: View) {
    && end.chain == start.chain
    && PendingGains(start, reset, dirty, promoted)
    && ListsSettle(start, setting, reset, dirty, promoted, end)
    && HeartbeatsMove(start, reset, dirty, clock, promoted, end)
    && NoncesMove(start, reset, dirty, end)
  }

  /** The accounts that promotion visits: all that are queued after a new head, else those with news. */
  ghost predicate Visits(start: View, reset: bool, dirty: seq<Address>, accounts: seq<Address>) {
    forall a :: a in accounts <==> if reset then a in start.queue else a in dirty
  }

  lemma GainsBy(start: View, reset: bool, dirty: seq<Address>, accounts: seq<Address>, promoted: Lists)
    requires Visits(start, reset, dirty, accounts)
    requires forall t :: In(promoted, t) <==>
               In(start.pending, t) || (t.from in accounts && Holds(start.Executables(t.from), t))
    ensures PendingGains(start, reset, dirty, promoted)
  {
    hide In, View.Executables;
    forall a
      ensures a !in start.queue ==> start.Executables(a) == map[]
    {
      NotQueued(start, a, false, 0);
    }
  }

  lemma SettleBy(start: View, setting: Setting, reset: bool, dirty: seq<Address>, accounts: seq<Address>,
                 promoted: Lists, q: Lists, end: View)
    requires Visits(start, reset, dirty, accounts)
    requires forall a :: Get(q, a, false).items ==
               if a in accounts then LeftIn(start, setting, a) else Get(start.queue, a, false).items
    requires !reset ==> end.pending == promoted && end.queue == q
    requires reset ==> forall t :: In(end.pending, t) <==> Stays(start.chain, promoted, t)
    requires reset ==> forall t :: In(end.queue, t) <==> In(q, t) || Falls(start.chain, promoted, t)
    ensures ListsSettle(start, setting, reset, dirty, promoted, end)
  {
    hide Stays, Falls, LeftIn;
    if reset {
      forall a
        ensures Get(q, a, false).items == LeftIn(start, setting, a)
      {
        LeftInNothing(start, setting, a);
      }
      InGet(q);
    }
  }

  lemma LeftInNothing(start: View, setting: Setting, a: Address)
    ensures a !in start.queue ==> LeftIn(start, setting, a) == map[] == Get(start.queue, a, false).items
  {
    NotQueued(start, a, a in setting.locals, setting.config.accountQueue);
  }

  lemma InGet(q: Lists)
    ensures forall t: Tx :: In(q, t) <==> Holds(Get(q, t.from, false).items, t)
  {
  }

  lemma HeardBy(start: View, reset: bool, dirty: seq<Address>, accounts: seq<Address>, clock: Address -> int,
                promoted: Lists, beats: map<Address, int>, end: View)
    requires Visits(start, reset, dirty, accounts)
    requires forall a :: Beat(beats, a) ==
               if a in accounts && start.Executables(a) != map[] then clock(a) else Beat(start.beats, a)
    requires !reset ==> end.pending == promoted && end.beats == beats
    requires reset ==> end.beats == Heard(beats, promoted, end.pending)
    ensures HeartbeatsMove(start, reset, dirty, clock, promoted, end)
  {
    hide View.Executables;
    forall a
      ensures a !in start.queue ==> start.Executables(a) == map[]
    {
      NotQueued(start, a, false, 0);
    }
  }

  lemma NoncesBy(start: View, reset: bool, dirty: seq<Address>, accounts: seq<Address>, end: View)
    requires Visits(start, reset, dirty, accounts)
    requires forall a :: if a in accounts then Advanced(start.Executables(a), start.Next(a), end.Next(a))
                         else end.Next(a) == start.Next(a)
    ensures NoncesMove(start, reset, dirty, end)
  {
    hide View.Executables, View.Next, NextAfter;
    forall a
      ensures a !in start.queue ==> start.Executables(a) == map[]
    {
      NotQueued(start, a, false, 0);
    }
  }

  lemma RearrangedChain(start: View, setting: Setting, reset: bool, dirty: seq<Address>, clock: Address -> int,
                        promoted: Lists, end: View)
    requires Rearranged(start, setting, reset, dirty, clock, promoted, end)
    ensures end.chain == start.chain
  {
  }

  lemma OwnRun(v: View, a: Address) returns (t: Tx)
    requires Sound(v.queue, false) && v.Executables(a) != map[]
    ensures t.from == a && Holds(v.Executables(a), t)
  {
    NotQueued(v, a, false, 0);
    PromoteShrinks(v.queue[a], a, v.chain.Nonce(a), v.chain.Balance(a), v.chain.gasLimit, v.Next(a));
    RunHolds(v.queue[a], a, v.chain.Nonce(a), v.chain.Balance(a), v.chain.gasLimit, v.Next(a));
    var n :| n in v.Executables(a);
    t := v.Executables(a)[n];
  }

  /** Without a new head, an account that ends without pending transactions keeps its virtual nonce. */
  lemma NotPending(start: View, setting: Setting, reset: bool, dirty: seq<Address>, clock: Address -> int,
                   promoted: Lists, fit: View)
    requires Rearranged(start, setting, reset, dirty, clock, promoted, fit) && Sound(start.queue, false)
    ensures !reset ==> forall a | a !in fit.pending :: fit.Next(a) == start.Next(a)
  {
    hide View.Next, View.Executables, NextAfter, HeartbeatsMove, Sound;
    forall a | a !in fit.pending
      ensures !reset ==> fit.Next(a) == start.Next(a)
    {
      if !reset && a in dirty && start.Executables(a) != map[] {
        var t := OwnRun(start, a);
        assert In(promoted, t);
      }
    }
  }

  /** After a reset the virtual nonces are the chain's, but for accounts that lost a pending slot to a crowded pool. */
  lemma NextFromChain(before: View, all0: Lookup, setting: Setting, crowded: bool, head: ChainState, reinject: seq<Tx>,
                      after: View)
    requires ResetTo(before, all0, setting, crowded, head, reinject, after)
    ensures forall a :: after.Next(a) <= head.Nonce(a)
    ensures forall a | !crowded || a in setting.locals :: after.Next(a) == head.Nonce(a)
  {
    var start := before.(nonces := map[], chain := head);
    assert forall a :: start.Next(a) == head.Nonce(a);
    hide In, Taken, Rejected, SlotTaken, View.Next;
  }

  /** Virtual nonces depend on the chain's nonces alone, not on its other parts. */
  lemma RecededFork(v: View, v': View, head: ChainState)
    requires Receded(v, v') && head.nonces == v.chain.nonces
    ensures Receded(v.(chain := head), v'.(chain := head))
  {
    assert forall a :: v.(chain := head).Next(a) == v.Next(a);
    assert forall a :: v'.(chain := head).Next(a) == v'.Next(a);
    hide Taken, View.Next;
  }

  lemma ResetBy(before: View, all0: Lookup, setting: Setting, crowded: bool, head: ChainState, reinject: seq<Tx>,
                after: View, all: Lookup)
    requires Inv(after.pending, after.queue, all, {}) && Receded(before.(nonces := map[], chain := head), after)
    requires forall t :: In(after.pending, t) ==> In(before.pending, t) || t in reinject
    requires forall t :: In(before.pending, t) ==>
               In(after.pending, t) || Reinjected(reinject, t) || (t.from !in setting.locals && crowded)
    requires forall a, n: Uint64 | Taken(before.pending, a, n) && !Taken(after.pending, a, n) ::
               a !in setting.locals && crowded
    requires forall t :: Live(all, t) ==> Live(all0, t) || t in reinject
    requires forall d :: Live(all0, d) && !Live(all, d) ==>
               Reinjected(reinject, d) || (d.from !in setting.locals && crowded)
    requires forall r | r in reinject ::
               Homed(all0, all, reinject, r,
                     Check(r, r.from in setting.locals, head.(istanbul := before.chain.istanbul), setting.gasPrice,
                           setting.config.usingOVM),
                     crowded && r.from !in setting.locals, setting.config.priceBump)
    ensures ResetTo(before, all0, setting, crowded, head, reinject, after)
  {
    hide Inv, Check, SlotTaken, Reinjected, In, Receded, Taken;
    InvMeaning(after.pending, after.queue, all);
  }
}
