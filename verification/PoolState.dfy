/**
 The pool's bookkeeping invariant on plain maps: `all` is exactly the disjoint union of
 the pending and the queued transactions (plus those currently in transit), and no
 account has a nonce both pending and queued.
 */
module PoolState {
  import opened Wrappers
  import opened Transactions
  import opened SortedMap
  import opened TxLists
  import opened PricedList
  import Gas

  datatype Config = Config(priceBump: nat, accountSlots: nat, globalSlots: nat,
                           accountQueue: nat, globalQueue: nat, usingOVM: bool)

  predicate Workable(c: Config) {
    c.priceBump >= 1 && c.accountSlots >= 1 && c.globalSlots >= 1 && c.accountQueue >= 1 && c.globalQueue >= 1
  }

  /** A limit that works is kept, any other is replaced. */
  predicate Sanitized(given: nat, standard: nat, used: nat) {
    if given >= 1 then used == given else used == standard
  }

  /** Unworkable limits are replaced by the defaults. */
  function Sanitize(c: Config): (r: Config)
    ensures r.priceBump >= 1 && r.accountSlots >= 1 && r.globalSlots >= 1 && r.accountQueue >= 1 && r.globalQueue >= 1
    ensures Workable(c) ==> r == c
    ensures Sanitized(c.priceBump, 10, r.priceBump) && Sanitized(c.accountSlots, 16, r.accountSlots)
    ensures Sanitized(c.globalSlots, 4096, r.globalSlots) && Sanitized(c.accountQueue, 64, r.accountQueue)
    ensures Sanitized(c.globalQueue, 1024, r.globalQueue) && r.usingOVM == c.usingOVM
  {
    Config(if c.priceBump < 1 then 10 else c.priceBump,
           if c.accountSlots < 1 then 16 else c.accountSlots,
           if c.globalSlots < 1 then 4096 else c.globalSlots,
           if c.accountQueue < 1 then 64 else c.accountQueue,
           if c.globalQueue < 1 then 1024 else c.globalQueue,
           c.usingOVM)
  }

  datatype Error =
    | KnownTransaction | OversizedData | NegativeValue | GasLimit | Underpriced | NonceTooLow
    | InsufficientFunds | OutOfGas | IntrinsicGas | ReplaceUnderpriced

  /** What the pool takes over from the chain on a new head. */
  datatype ChainState = ChainState(nonces: map<Address, Uint64>, balances: map<Address, int>, gasLimit: Uint64,
                                   istanbul: bool)
  {
    function Nonce(a: Address): Uint64 {
      if a in nonces then nonces[a] else 0
    }

    function Balance(a: Address): int {
      if a in balances then balances[a] else 0
    }
  }

  const TX_MAX_SIZE := 2 * 32 * 1024

  /** Whether a transaction passes the pool's own checks against the chain state. */
  function Check(tx: Tx, local: bool, chain: ChainState, gasPrice: int, usingOVM: bool): (r: Option<Error>)
    ensures r != Some(KnownTransaction) && r != Some(ReplaceUnderpriced)
  {
    if tx.size > TX_MAX_SIZE then Some(OversizedData)
    else if tx.value < 0 then Some(NegativeValue)
    else if chain.gasLimit < tx.gas then Some(GasLimit)
    else if !local && gasPrice > tx.price then Some(Underpriced)
    else if (if usingOVM then chain.Nonce(tx.from) != tx.nonce else chain.Nonce(tx.from) > tx.nonce)
    then Some(NonceTooLow)
    else if !usingOVM && chain.Balance(tx.from) < tx.Cost() then Some(InsufficientFunds)
    else match Gas.Intrinsic(tx.data, tx.to == None, true, chain.istanbul)
      case None => Some(OutOfGas)
      case Some(gas) => if tx.gas < gas then Some(IntrinsicGas) else None
  }

  type Lists = map<Address, List>

  ghost predicate In(lists: Lists, tx: Tx) {
    tx.from in lists && Holds(lists[tx.from].items, tx)
  }

  predicate NonceFree(lists: Lists, tx: Tx) {
    tx.from in lists ==> tx.nonce !in lists[tx.from].items
  }

  ghost predicate SameSlot(a: Tx, b: Tx) {
    a.from == b.from && a.nonce == b.nonce
  }

  ghost predicate GoodList(l: List, a: Address, strict: bool) {
    && l.strict == strict
    && Keyed(l.items)
    && l.Bounded()
    && (forall n | n in l.items :: l.items[n].from == a)
  }

  /** Every list is well formed, owned by its account, and not empty. */
  ghost predicate Sound(lists: Lists, strict: bool) {
    forall a | a in lists :: GoodList(lists[a], a, strict) && lists[a].items != map[]
  }

  /** No account has a nonce in both maps. */
  ghost predicate Apart(p: Lists, q: Lists) {
    forall a, n | a in p && a in q && n in p[a].items :: n !in q[a].items
  }

  /** The pool invariant, with the transactions of `transit` known but on neither list. */
  ghost predicate Inv(p: Lists, q: Lists, all: Lookup, transit: set<Tx>) {
    && Sound(p, true) && Sound(q, false) && Apart(p, q) && Hashed(all)
    && (forall tx :: Live(all, tx) <==> In(p, tx) || In(q, tx) || tx in transit)
    && (forall tx | tx in transit :: !In(p, tx) && NonceFree(q, tx))
    && (forall t, u | t in transit && u in transit && SameSlot(t, u) :: t == u)
  }

  function Get(lists: Lists, a: Address, strict: bool): List {
    if a in lists then lists[a] else List(strict, map[], 0, 0)
  }

  /** Stores a list under an account, or deletes the account when the list is empty. */
  function With(lists: Lists, a: Address, l: List): Lists {
    if l.items == map[] then lists - {a} else lists[a := l]
  }

  lemma WithIn(lists: Lists, strict: bool, a: Address, l: List)
    requires Sound(lists, strict) && GoodList(l, a, strict)
    ensures Sound(With(lists, a, l), strict)
    ensures forall t :: In(With(lists, a, l), t) <==> if t.from == a then Holds(l.items, t) else In(lists, t)
  {
  }

  lemma GetGood(lists: Lists, strict: bool, a: Address)
    requires Sound(lists, strict)
    ensures GoodList(Get(lists, a, strict), a, strict)
    ensures forall t: Tx :: t.from == a ==> (In(lists, t) <==> Holds(Get(lists, a, strict).items, t))
  {
  }

  lemma AddGood(l: List, a: Address, strict: bool, tx: Tx)
    requires GoodList(l, a, strict) && tx.from == a
    ensures GoodList(l.Add(tx), a, strict)
    ensures forall t :: Holds(l.Add(tx).items, t) <==> t == tx || (Holds(l.items, t) && t.nonce != tx.nonce)
  {
    AddBounded(l, tx);
  }

  /** Puts a transaction on its account's list, replacing any with the same nonce. */
  function Put(lists: Lists, strict: bool, tx: Tx): Lists {
    lists[tx.from := Get(lists, tx.from, strict).Add(tx)]
  }

  lemma PutIn(lists: Lists, strict: bool, tx: Tx)
    requires Sound(lists, strict)
    ensures Sound(Put(lists, strict, tx), strict)
    ensures forall t :: In(Put(lists, strict, tx), t) <==> t == tx || (In(lists, t) && !SameSlot(t, tx))
    ensures forall t :: NonceFree(Put(lists, strict, tx), t) <==> NonceFree(lists, t) && !SameSlot(t, tx)
  {
    GetGood(lists, strict, tx.from);
    var l := Get(lists, tx.from, strict);
    AddGood(l, tx.from, strict, tx);
    assert With(lists, tx.from, l.Add(tx)) == Put(lists, strict, tx);
    WithIn(lists, strict, tx.from, l.Add(tx));
  }

  /** The lookup after `prior`, if any, was replaced by `tx`. */
  function Registered(all: Lookup, prior: Option<Tx>, tx: Tx): Lookup {
    var kept := if prior.Some? then all - {HashOf(prior.value)} else all;
    if HashOf(tx) in kept then kept else kept[HashOf(tx) := tx]
  }

  /** The transaction that holds the slot of `tx` in `lists`. */
  function Prior(lists: Lists, tx: Tx): Option<Tx> {
    if NonceFree(lists, tx) then None else Some(lists[tx.from].items[tx.nonce])
  }

  /** The lookup after `tx` took its slot in `lists`: a replaced transaction goes, `tx` comes. */
  function Swapped(all: Lookup, lists: Lists, tx: Tx): Lookup {
    Registered(all, Prior(lists, tx), tx)
  }

  lemma SwappedLive(all: Lookup, lists: Lists, tx: Tx, strict: bool)
    requires Sound(lists, strict) && Hashed(all) && !In(lists, tx)
    ensures Hashed(Swapped(all, lists, tx))
    ensures forall t :: Live(Swapped(all, lists, tx), t) <==>
                        t == tx || (Live(all, t) && !(In(lists, t) && SameSlot(t, tx)))
  {
    if !NonceFree(lists, tx) {
      var prior := lists[tx.from].items[tx.nonce];
      forall t
        ensures In(lists, t) && SameSlot(t, tx) <==> t == prior
      {
      }
    }
  }

  /** Whoever holds the slot of `tx` on a list is pooled. */
  lemma PriorLive(p: Lists, q: Lists, all: Lookup, transit: set<Tx>, tx: Tx)
    requires Inv(p, q, all, transit)
    ensures Prior(p, tx).Some? ==> Live(all, Prior(p, tx).value)
    ensures Prior(q, tx).Some? ==> Live(all, Prior(q, tx).value)
  {
    assert Prior(p, tx).Some? ==> In(p, Prior(p, tx).value);
    assert Prior(q, tx).Some? ==> In(q, Prior(q, tx).value);
  }

  lemma EnqueueKeepsInv(p: Lists, q: Lists, all: Lookup, transit: set<Tx>, tx: Tx)
    requires Inv(p, q, all, transit) && NonceFree(p, tx) && (tx in transit || !Live(all, tx))
    requires forall t | t in transit && SameSlot(t, tx) :: t == tx
    ensures Inv(p, Put(q, false, tx), Swapped(all, q, tx), transit - {tx})
  {
    PutIn(q, false, tx);
    SwappedLive(all, q, tx, false);
    assert Apart(p, Put(q, false, tx));
  }

  lemma PromoteKeepsInv(p: Lists, q: Lists, all: Lookup, transit: set<Tx>, tx: Tx)
    requires Inv(p, q, all, transit) && NonceFree(q, tx) && (tx in transit || !Live(all, tx))
    ensures Inv(Put(p, true, tx), q, Swapped(all, p, tx), transit - {tx})
  {
    PutIn(p, true, tx);
    SwappedLive(all, p, tx, true);
    assert Apart(Put(p, true, tx), q);
  }

  ghost predicate Hashes(hs: set<Hash>, txs: set<Tx>) {
    forall t :: HashOf(t) in hs <==> t in txs
  }

  function HashSet(txs: set<Tx>): (hs: set<Hash>)
    ensures Hashes(hs, txs)
  {
    set t | t in txs :: HashOf(t)
  }

  /** `l` is `from` without the transactions of `gone` and `moved`. */
  ghost predicate Shrinks(from: List, l: List, a: Address, strict: bool, gone: set<Tx>, moved: set<Tx>) {
    && GoodList(l, a, strict)
    && (forall t :: Holds(from.items, t) <==> Holds(l.items, t) || t in gone || t in moved)
    && (forall t | t in gone || t in moved :: t.nonce !in l.items)
    && gone !! moved
  }

  lemma ShrinkIn(lists: Lists, strict: bool, a: Address, l: List, gone: set<Tx>, moved: set<Tx>)
    requires Sound(lists, strict) && a in lists && Shrinks(lists[a], l, a, strict, gone, moved)
    ensures Sound(With(lists, a, l), strict)
    ensures forall t :: In(With(lists, a, l), t) <==> In(lists, t) && t !in gone && t !in moved
    ensures forall t | t in gone || t in moved :: In(lists, t) && NonceFree(With(lists, a, l), t)
    ensures forall t :: NonceFree(lists, t) ==> NonceFree(With(lists, a, l), t)
  {
    WithIn(lists, strict, a, l);
    forall t | t in gone || t in moved
      ensures t.from == a && In(lists, t)
    {
      assert Holds(lists[a].items, t);
    }
    forall n | n in l.items
      ensures n in lists[a].items
    {
      assert Holds(l.items, l.items[n]) && Holds(lists[a].items, l.items[n]);
    }
  }

  lemma DropLive(all: Lookup, gone: set<Tx>)
    requires Hashed(all)
    ensures Hashed(all - HashSet(gone))
    ensures forall t :: Live(all - HashSet(gone), t) <==> Live(all, t) && t !in gone
  {
  }

  lemma ApartFree(p: Lists, q: Lists)
    ensures Apart(p, q) <==> forall a, n | a in p && n in p[a].items :: a in q ==> n !in q[a].items
    ensures Apart(p, q) ==> forall t :: In(p, t) ==> NonceFree(q, t)
    ensures Apart(p, q) ==> forall t :: In(q, t) ==> NonceFree(p, t)
  {
  }

  lemma ShrinkApart(p: Lists, q: Lists, a: Address, l: List)
    requires Apart(p, q)
    ensures (a in p && forall n | n in l.items :: n in p[a].items) ==> Apart(With(p, a, l), q)
    ensures (a in q && forall n | n in l.items :: n in q[a].items) ==> Apart(p, With(q, a, l))
  {
  }

  lemma ShrinkKeys(from: List, l: List, a: Address, strict: bool, gone: set<Tx>, moved: set<Tx>)
    requires Shrinks(from, l, a, strict, gone, moved)
    ensures forall n | n in l.items :: n in from.items
  {
    forall n | n in l.items
      ensures n in from.items
    {
      assert Holds(l.items, l.items[n]) && Holds(from.items, l.items[n]);
    }
  }

  /** Taking transactions off a pending list: `gone` leave the pool, `moved` are in transit. */
  lemma TakePending(p: Lists, q: Lists, all: Lookup, a: Address, l: List, gone: set<Tx>, moved: set<Tx>)
    requires Inv(p, q, all, {}) && a in p && Shrinks(p[a], l, a, true, gone, moved)
    ensures Inv(With(p, a, l), q, all - HashSet(gone), moved)
    ensures forall t | t in moved :: NonceFree(With(p, a, l), t)
  {
    ShrinkIn(p, true, a, l, gone, moved);
    ShrinkKeys(p[a], l, a, true, gone, moved);
    ShrinkApart(p, q, a, l);
    DropLive(all, gone);
    ApartFree(p, q);
    assert forall t, u | t in moved && u in moved && SameSlot(t, u) :: In(p, t) && In(p, u);
  }

  /** Taking transactions off a queued list. */
  lemma TakeQueued(p: Lists, q: Lists, all: Lookup, a: Address, l: List, gone: set<Tx>, moved: set<Tx>)
    requires Inv(p, q, all, {}) && a in q && Shrinks(q[a], l, a, false, gone, moved)
    ensures Inv(p, With(q, a, l), all - HashSet(gone), moved)
  {
    ShrinkIn(q, false, a, l, gone, moved);
    ShrinkKeys(q[a], l, a, false, gone, moved);
    ShrinkApart(p, q, a, l);
    DropLive(all, gone);
    ApartFree(p, q);
    assert forall t, u | t in moved && u in moved && SameSlot(t, u) :: In(q, t) && In(q, u);
  }

  // ---------- what the list operations take out ----------

  function Txs(items: Items): set<Tx> {
    set n | n in items :: items[n]
  }

  lemma TxsHold(items: Items)
    requires Keyed(items)
    ensures forall t :: t in Txs(items) <==> Holds(items, t)
  {
  }

  /** A smaller list splits the larger one into what stays, what is gone and what is moved. */
  lemma SplitShrinks(from: List, l: List, a: Address, strict: bool, gone: Items, moved: Items)
    requires GoodList(from, a, strict) && l.strict == strict && l.Bounded()
    requires forall n :: n in from.items <==> n in l.items || n in gone || n in moved
    requires forall n | n in l.items :: l.items[n] == from.items[n] && n !in gone && n !in moved
    requires forall n | n in gone :: gone[n] == from.items[n] && n !in moved
    requires forall n | n in moved :: moved[n] == from.items[n]
    ensures Shrinks(from, l, a, strict, Txs(gone), Txs(moved))
    ensures forall t | t in Txs(gone) || t in Txs(moved) :: Holds(from.items, t)
  {
    TxsHold(gone);
    TxsHold(moved);
    assert forall t :: Holds(from.items, t) <==> Holds(l.items, t) || Holds(gone, t) || Holds(moved, t);
  }

  lemma RemoveShrinks(l: List, a: Address, strict: bool, nonce: Uint64)
    requires GoodList(l, a, strict) && nonce in l.items
    ensures Shrinks(l, l.Remove(nonce), a, strict, {l.items[nonce]},
                    if strict then Txs(AtLeast(l.items, nonce + 1)) else {})
  {
    var moved := if strict then AtLeast(l.items, nonce + 1) else map[];
    var gone: Items := map[nonce := l.items[nonce]];
    SmallerBounded(l, l.Remove(nonce).items);
    SplitShrinks(l, l.Remove(nonce), a, strict, gone, moved);
    assert Txs(gone) == {l.items[nonce]};
    assert Txs(map[]) == {};
  }

  lemma CapShrinks(l: List, a: Address, strict: bool, k: nat)
    requires GoodList(l, a, strict)
    ensures Shrinks(l, l.Cap(k), a, strict, Txs(l.items - Lowest(l.items, k).Keys), {})
  {
    SmallerBounded(l, Lowest(l.items, k));
    SplitShrinks(l, l.Cap(k), a, strict, l.items - Lowest(l.items, k).Keys, map[]);
    assert Txs(map[]) == {};
  }

  lemma ForwardGood(l: List, a: Address, strict: bool, nonce: Uint64)
    requires GoodList(l, a, strict)
    ensures GoodList(l.Forward(nonce), a, strict)
  {
    SmallerBounded(l, AtLeast(l.items, nonce));
  }

  lemma FilterGood(l: List, a: Address, strict: bool, balance: int, maxGas: Uint64)
    requires GoodList(l, a, strict)
    ensures GoodList(l.Filter(balance, maxGas), a, strict)
    ensures forall n | n in l.Filter(balance, maxGas).items ::
              n in l.items && n !in l.FilterDrops(balance, maxGas) && l.Filter(balance, maxGas).items[n] == l.items[n]
    ensures forall n | n in l.FilterDrops(balance, maxGas) ::
              n in l.items && l.FilterDrops(balance, maxGas)[n] == l.items[n] && TooDear(balance, maxGas)(l.items[n])
    ensures !strict ==> forall n | n in l.items ::
              n in l.FilterDrops(balance, maxGas) || n in l.Filter(balance, maxGas).items
  {
    FilterBounded(l, balance, maxGas);
    if !(l.costcap <= balance && l.gascap <= maxGas) && strict {
      forall n | n in l.Filter(balance, maxGas).items
        ensures !TooDear(balance, maxGas)(l.items[n])
      {
        assert NoneUpTo(l.items, TooDear(balance, maxGas), n);
      }
    }
  }

  /** What promoteExecutables leaves of a queued list before capping it, and what it takes out. */
  lemma PromoteShrinks(l: List, a: Address, nonce: Uint64, balance: int, maxGas: Uint64, start: Uint64)
    requires GoodList(l, a, false)
    ensures var l1 := l.Forward(nonce); var l2 := l1.Filter(balance, maxGas);
            && Keyed(l2.items)
            && Shrinks(l, l2.Ready(start), a, false,
                       Txs(Below(l.items, nonce)) + Txs(l1.FilterDrops(balance, maxGas)),
                       Txs(ReadyRun(l2.items, start)))
  {
    var l1 := l.Forward(nonce);
    ForwardGood(l, a, false, nonce);
    var l2 := l1.Filter(balance, maxGas);
    FilterGood(l1, a, false, balance, maxGas);
    var drops := l1.FilterDrops(balance, maxGas);
    var run := ReadyRun(l2.items, start);
    SmallerBounded(l2, l2.items - run.Keys);
    SplitShrinks(l, l2.Ready(start), a, false, Below(l.items, nonce) + drops, run);
    TxsUnion(Below(l.items, nonce), drops);
  }

  lemma TxsUnion(x: Items, y: Items)
    requires x.Keys !! y.Keys
    ensures Txs(x + y) == Txs(x) + Txs(y)
  {
  }

  /** What demoteUnexecutables leaves of a pending list: nothing at all when the next nonce is missing. */
  function Executable(l: List, nonce: Uint64, balance: int, maxGas: Uint64): List {
    var l2 := l.Forward(nonce).Filter(balance, maxGas);
    if l2.items != map[] && nonce !in l2.items then l2.Cap(0) else l2
  }

  lemma ExecutablePart(l: List, nonce: Uint64, balance: int, maxGas: Uint64)
    ensures var l2 := l.Forward(nonce).Filter(balance, maxGas); var l3 := Executable(l, nonce, balance, maxGas);
            l3 == l2 || (l3 == l2.(items := map[]))
  {
    hide List.Filter;
  }

  lemma DemoteShrinks(l: List, a: Address, nonce: Uint64, balance: int, maxGas: Uint64)
    requires GoodList(l, a, true)
    ensures var l1 := l.Forward(nonce); var l2 := l1.Filter(balance, maxGas);
            var l3 := Executable(l, nonce, balance, maxGas);
            Shrinks(l, l3, a, true,
                    Txs(Below(l.items, nonce)) + Txs(l1.FilterDrops(balance, maxGas)),
                    Txs(l1.FilterInvalids(balance, maxGas)) + Txs(l2.items - l3.items.Keys))
  {
    hide List.Filter, List.FilterDrops;
    var l1 := l.Forward(nonce);
    ForwardGood(l, a, true, nonce);
    var l2 := l1.Filter(balance, maxGas);
    FilterGood(l1, a, true, balance, maxGas);
    var l3 := Executable(l, nonce, balance, maxGas);
    hide Executable;
    ExecutablePart(l, nonce, balance, maxGas);
    SmallerBounded(l2, l3.items);
    var drops := l1.FilterDrops(balance, maxGas);
    var invalids := l1.FilterInvalids(balance, maxGas);
    var gapped := l2.items - l3.items.Keys;
    SplitShrinks(l, l3, a, true, Below(l.items, nonce) + drops, invalids + gapped);
    TxsUnion(Below(l.items, nonce), drops);
    TxsUnion(invalids, gapped);
  }
}
