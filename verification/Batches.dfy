/**
 What adding a batch of transactions does to the pool (l2geth/core/tx_pool.go, addTxsLocked), stated on
 plain values: who is accepted and why, who leaves, and which accounts have to be promoted.
 */
module Batches {
  import opened Wrappers
  import opened Transactions
  import opened TxLists
  import opened PricedList
  import opened PoolState
  import opened PoolSteps

  /** Some occurrence of `t` in the batch was accepted; `errs` may cover only the first part of it. */
  ghost predicate Accepted(txs: seq<Tx>, errs: seq<Option<Error>>, t: Tx) {
    exists i :: 0 <= i < |errs| <= |txs| && txs[i] == t && errs[i] == None
  }

  /** From position `from` on, another transaction of the batch was accepted in the slot of `d`. */
  ghost predicate Outplaced(txs: seq<Tx>, errs: seq<Option<Error>>, from: nat, d: Tx) {
    exists i :: from <= i < |errs| <= |txs| && txs[i] != d && SameSlot(txs[i], d) && errs[i] == None
  }

  /** The member at `k` was accepted into a slot that neither the pool nor the batch had filled before. */
  ghost predicate FirstInSlot(all: Lookup, txs: seq<Tx>, errs: seq<Option<Error>>, k: int) {
    && 0 <= k < |errs| <= |txs| && errs[k] == None
    && forall t :: SameSlot(t, txs[k]) ==> !Live(all, t) && !Accepted(txs, errs[..k], t)
  }

  /** A pooled or accepted transaction in the slot of `tx` is not outbid by it. */
  ghost predicate Beaten(all: Lookup, txs: seq<Tx>, errs: seq<Option<Error>>, tx: Tx, bump: nat) {
    exists t :: (Live(all, t) || Accepted(txs, errs, t)) && SameSlot(t, tx) && t != tx && !Outbids(tx, t, bump)
  }

  /**
   Why a batch member got its answer: known already, invalid, or valid and then accepted, not
   dear enough for its slot, or turned away from a pool the batch could fill.
   */
  ghost predicate Answered(all: Lookup, txs: seq<Tx>, earlier: seq<Option<Error>>, tx: Tx, err: Option<Error>,
                           valid: Option<Error>, crowded: bool, bump: nat) {
    || (err == Some(KnownTransaction) && (Live(all, tx) || Accepted(txs, earlier, tx)))
    || (valid.Some? && err == valid)
    || (valid == None && err == None)
    || (valid == None && err == Some(Underpriced) && crowded)
    || (valid == None && err == Some(ReplaceUnderpriced) && Beaten(all, txs, earlier, tx, bump))
  }

  /** What adding one transaction did: only its slot changed hands, unless a full pool evicted remotes. */
  ghost predicate Added(all: Lookup, p: Lists, all': Lookup, p': Lists, tx: Tx, err: Option<Error>, replaced: bool,
                        locals: set<Address>, full: bool) {
    && (forall t :: Live(all', t) ==> Live(all, t) || (t == tx && err == None))
    && (err == None ==> Live(all', tx) && !Live(all, tx))
    && (forall d :: Live(all, d) && !Live(all', d) ==> (err == None && SameSlot(tx, d)) || (full && d.from !in locals))
    && (forall t :: In(p', t) ==> In(p, t) || (t == tx && err == None))
    && (forall t :: In(p, t) ==>
          In(p', t) || (err == None && t != tx && SameSlot(tx, t)) || (full && t.from !in locals))
    && (forall a, n: Uint64 | Taken(p, a, n) && !Taken(p', a, n) :: full && a !in locals)
    && (replaced ==> err == None && exists t :: Live(all, t) && SameSlot(t, tx))
    && (!full ==> (replaced <==> err == None && exists t :: Live(all, t) && SameSlot(t, tx)))
  }

  lemma NotAdded(all: Lookup, p: Lists, tx: Tx, err: Option<Error>, locals: set<Address>, full: bool)
    requires err.Some?
    ensures Added(all, p, all, p, tx, err, false, locals, full)
  {
  }

  /** What placing a transaction does to pending lists from which remote ones may have been evicted. */
  lemma PutAdds(p: Lists, q: Lists, all: Lookup, p1: Lists, p': Lists, tx: Tx, err: Option<Error>,
                locals: set<Address>, full: bool)
    requires Inv(p, q, all, {}) && !Live(all, tx) && Shrunk(p, p1, locals) && (!full ==> p1 == p)
    requires p' == if err == None && !NonceFree(p1, tx) then Put(p1, true, tx) else p1
    ensures forall t :: In(p', t) ==> In(p, t) || (t == tx && err == None)
    ensures forall t :: In(p, t) ==>
              In(p', t) || (err == None && t != tx && SameSlot(tx, t)) || (full && t.from !in locals)
    ensures forall a, n: Uint64 | Taken(p, a, n) && !Taken(p', a, n) :: full && a !in locals
  {
    PutHolds(p1, tx);
    KeptBy(p, p1, locals);
    assert forall t :: In(p1, t) ==> In(p, t);
    assert !In(p, tx);
    hide Inv, Shrunk, Put, NonceFree, In, Taken;
  }

  lemma PutHolds(p: Lists, tx: Tx)
    ensures forall t :: In(Put(p, true, tx), t) <==> t == tx || (In(p, t) && !SameSlot(t, tx))
    ensures forall a, n: Uint64 | Taken(p, a, n) :: Taken(Put(p, true, tx), a, n)
  {
  }

  lemma KeptBy(p: Lists, p': Lists, keep: set<Address>)
    requires Shrunk(p, p', keep)
    ensures forall t :: In(p, t) && t.from in keep ==> In(p', t)
    ensures forall a, n: Uint64 | Taken(p, a, n) && a in keep :: Taken(p', a, n)
  {
    assert forall t: Tx | t.from in keep :: Get(p', t.from, true) == Get(p, t.from, true);
  }

  /** Making room and placing the transaction is adding it. */
  lemma AddedBy(all: Lookup, p: Lists, q: Lists, roomy: Lookup, p1: Lists, all': Lookup, p': Lists, tx: Tx,
                err: Option<Error>, replaced: bool, locals: set<Address>, limit: int, full: bool)
    requires Inv(p, q, all, {}) && !Live(all, tx) && Cleared(all, roomy, tx, locals, limit)
    requires Shrunk(p, p1, locals) && (!full ==> roomy == all && p1 == p)
    requires Placed(roomy, all', tx, err == None)
    requires p' == if err == None && !NonceFree(p1, tx) then Put(p1, true, tx) else p1
    requires replaced <==> err == None && exists t :: Live(roomy, t) && SameSlot(t, tx)
    ensures Added(all, p, all', p', tx, err, replaced, locals, full)
    ensures forall d :: Live(all, d) && !Live(all', d) ==>
              (err == None && SameSlot(d, tx)) || (full && EvictedFor(d, all', locals, tx))
  {
    hide Inv, Put, NonceFree, In, Taken, Shrunk;
    PutAdds(p, q, all, p1, p', tx, err, locals, full);
  }

  /** Who is pooled after a part of the batch, and who left. */
  ghost predicate PooledSoFar(all0: Lookup, p0: Lists, txs: seq<Tx>, errs: seq<Option<Error>>, locals: set<Address>,
                              crowded: bool, all: Lookup, p: Lists) {
    && |errs| <= |txs|
    && (forall t :: Live(all, t) ==> Live(all0, t) || Accepted(txs, errs, t))
    && (forall k | 0 <= k < |errs| && errs[k] == None && !Live(all, txs[k]) ::
          Outplaced(txs, errs, k + 1, txs[k]) || (txs[k].from !in locals && crowded))
    && (forall d :: Live(all0, d) && !Live(all, d) ==>
          Outplaced(txs, errs, 0, d) || (d.from !in locals && crowded))
    && (forall t :: In(p, t) ==> In(p0, t) || Accepted(txs, errs, t))
    && (forall t :: In(p0, t) ==> In(p, t) || Outplaced(txs, errs, 0, t) || (t.from !in locals && crowded))
    && (forall a, n: Uint64 | Taken(p0, a, n) && !Taken(p, a, n) :: a !in locals && crowded)
  }

  /** The accounts to promote are those of members that displaced nobody; a slot once filled stays filled. */
  ghost predicate DirtySoFar(all0: Lookup, txs: seq<Tx>, errs: seq<Option<Error>>, crowded: bool, all: Lookup,
                             dirty: set<Address>) {
    && |errs| <= |txs|
    && (forall a | a in dirty :: exists k :: 0 <= k < |errs| && errs[k] == None && txs[k].from == a)
    && (forall k | FirstInSlot(all0, txs, errs, k) :: txs[k].from in dirty)
    && (!crowded ==> forall t :: Live(all0, t) || Accepted(txs, errs, t) ==> exists u :: Live(all, u) && SameSlot(u, t))
    && (!crowded ==> forall a :: a in dirty <==> exists k :: FirstInSlot(all0, txs, errs, k) && txs[k].from == a)
  }

  lemma Appended(txs: seq<Tx>, errs: seq<Option<Error>>, err: Option<Error>)
    requires |errs| < |txs|
    ensures forall t :: Accepted(txs, errs + [err], t) <==> Accepted(txs, errs, t) || (t == txs[|errs|] && err == None)
    ensures forall k: nat, d :: Outplaced(txs, errs, k, d) ==> Outplaced(txs, errs + [err], k, d)
    ensures forall k: nat, d :: k <= |errs| && txs[|errs|] != d && SameSlot(txs[|errs|], d) && err == None ==>
              Outplaced(txs, errs + [err], k, d)
    ensures forall k :: 0 <= k < |errs| ==> (errs + [err])[..k] == errs[..k]
    ensures (errs + [err])[..|errs|] == errs
  {
    var errs' := errs + [err];
    forall t | Accepted(txs, errs, t)
      ensures Accepted(txs, errs', t)
    {
      var i :| 0 <= i < |errs| <= |txs| && txs[i] == t && errs[i] == None;
      assert errs'[i] == None;
    }
    forall k: nat, d | Outplaced(txs, errs, k, d)
      ensures Outplaced(txs, errs', k, d)
    {
      var i :| k <= i < |errs| <= |txs| && txs[i] != d && SameSlot(txs[i], d) && errs[i] == None;
      assert errs'[i] == None;
    }
    assert errs'[|errs|] == err;
  }

  lemma NothingAdded(all: Lookup, p: Lists, txs: seq<Tx>, locals: set<Address>, crowded: bool)
    ensures PooledSoFar(all, p, txs, [], locals, crowded, all, p)
    ensures DirtySoFar(all, txs, [], crowded, all, {})
    ensures forall local :: LocalSoFar(all, txs, [], local, locals, locals)
  {
    assert forall t :: Live(all, t) ==> SameSlot(t, t);
  }

  /** The answer of the next member, from what Add says about it. */
  lemma AnsweredNow(all0: Lookup, p0: Lists, txs: seq<Tx>, errs: seq<Option<Error>>, locals: set<Address>,
                    crowded: bool, all: Lookup, p: Lists, all': Lookup, err: Option<Error>, valid: Option<Error>,
                    full: bool, bump: nat)
    requires PooledSoFar(all0, p0, txs, errs, locals, crowded, all, p) && |errs| < |txs|
    requires Live(all, txs[|errs|]) ==> err == Some(KnownTransaction)
    requires !Live(all, txs[|errs|]) && valid.Some? ==> err == valid
    requires !Live(all, txs[|errs|]) && valid == None ==>
               (err == Some(Underpriced) && full) ||
               err == if SlotTaken(all', txs[|errs|], bump) then Some(ReplaceUnderpriced) else None
    requires forall t :: Live(all', t) ==> Live(all, t) || (t == txs[|errs|] && err == None)
    requires full ==> crowded && txs[|errs|].from !in locals
    ensures Answered(all0, txs, errs, txs[|errs|], err, valid, crowded && txs[|errs|].from !in locals, bump)
  {
    hide Accepted, Outplaced, Outbids, In;
  }

  lemma PooledStep(all0: Lookup, p0: Lists, txs: seq<Tx>, errs: seq<Option<Error>>, locals: set<Address>,
                   crowded: bool, all: Lookup, p: Lists, err: Option<Error>, replaced: bool, locals': set<Address>,
                   full: bool, all': Lookup, p': Lists)
    requires PooledSoFar(all0, p0, txs, errs, locals, crowded, all, p) && |errs| < |txs|
    requires Added(all, p, all', p', txs[|errs|], err, replaced, locals', full)
    requires locals <= locals' && (full ==> crowded)
    ensures PooledSoFar(all0, p0, txs, errs + [err], locals, crowded, all', p')
  {
    hide Accepted, Outplaced, In, Taken;
    Appended(txs, errs, err);
  }

  lemma SlotsStayHeld(all0: Lookup, txs: seq<Tx>, errs: seq<Option<Error>>, all: Lookup, tx: Tx, err: Option<Error>,
                      all': Lookup, errs': seq<Option<Error>>)
    requires forall t :: Live(all0, t) || Accepted(txs, errs, t) ==> exists u :: Live(all, u) && SameSlot(u, t)
    requires forall t :: Accepted(txs, errs', t) <==> Accepted(txs, errs, t) || (t == tx && err == None)
    requires err == None ==> Live(all', tx)
    requires forall d :: Live(all, d) && !Live(all', d) ==> err == None && SameSlot(tx, d)
    ensures forall t :: Live(all0, t) || Accepted(txs, errs', t) ==> exists u :: Live(all', u) && SameSlot(u, t)
  {
    hide Accepted;
    forall t | Live(all0, t) || Accepted(txs, errs', t)
      ensures exists u :: Live(all', u) && SameSlot(u, t)
    {
      if Live(all0, t) || Accepted(txs, errs, t) {
        var u :| Live(all, u) && SameSlot(u, t);
        assert Live(all', u) || (Live(all', tx) && SameSlot(tx, t));
      } else {
        assert Live(all', tx) && SameSlot(tx, t);
      }
    }
  }

  /** Whether a member was first in its slot does not change later, and one that was displaced nobody. */
  lemma FirstsStay(all0: Lookup, txs: seq<Tx>, errs: seq<Option<Error>>, all: Lookup, err: Option<Error>,
                   replaced: bool)
    requires |errs| < |txs| && (forall t :: Live(all, t) ==> Live(all0, t) || Accepted(txs, errs, t))
    requires replaced ==> err == None && exists t :: Live(all, t) && SameSlot(t, txs[|errs|])
    ensures forall k | 0 <= k < |errs| :: FirstInSlot(all0, txs, errs + [err], k) <==> FirstInSlot(all0, txs, errs, k)
    ensures FirstInSlot(all0, txs, errs + [err], |errs|) ==> err == None && !replaced
  {
    Appended(txs, errs, err);
    hide Accepted;
  }

  lemma FirstsGrow(all0: Lookup, txs: seq<Tx>, errs: seq<Option<Error>>, err: Option<Error>, dirty: set<Address>,
                   dirty': set<Address>)
    requires |errs| < |txs|
    requires forall a :: a in dirty <==> exists k :: FirstInSlot(all0, txs, errs, k) && txs[k].from == a
    requires forall k | 0 <= k < |errs| :: FirstInSlot(all0, txs, errs + [err], k) <==> FirstInSlot(all0, txs, errs, k)
    requires dirty' == if FirstInSlot(all0, txs, errs + [err], |errs|) then dirty + {txs[|errs|].from} else dirty
    ensures forall a :: a in dirty' <==> exists k :: FirstInSlot(all0, txs, errs + [err], k) && txs[k].from == a
  {
    var errs' := errs + [err];
    hide Accepted;
    forall a
      ensures a in dirty' <==> exists k :: FirstInSlot(all0, txs, errs', k) && txs[k].from == a
    {
      if a in dirty {
        var k :| FirstInSlot(all0, txs, errs, k) && txs[k].from == a;
        assert FirstInSlot(all0, txs, errs', k);
      }
      if k :| FirstInSlot(all0, txs, errs', k) && txs[k].from == a {
        assert k == |errs| || FirstInSlot(all0, txs, errs, k);
      }
    }
  }

  lemma DirtyStep(all0: Lookup, p0: Lists, txs: seq<Tx>, errs: seq<Option<Error>>, locals: set<Address>,
                  crowded: bool, all: Lookup, p: Lists, err: Option<Error>, replaced: bool, locals': set<Address>,
                  full: bool, all': Lookup, p': Lists, dirty: set<Address>)
    requires PooledSoFar(all0, p0, txs, errs, locals, crowded, all, p) && |errs| < |txs|
    requires DirtySoFar(all0, txs, errs, crowded, all, dirty)
    requires Added(all, p, all', p', txs[|errs|], err, replaced, locals', full)
    requires full ==> crowded
    ensures DirtySoFar(all0, txs, errs + [err], crowded, all',
                       if err == None && !replaced then dirty + {txs[|errs|].from} else dirty)
  {
    hide Accepted, Outplaced, In;
    Appended(txs, errs, err);
    var tx, errs' := txs[|errs|], errs + [err];
    var dirty' := if err == None && !replaced then dirty + {tx.from} else dirty;
    forall a | a in dirty'
      ensures exists k :: 0 <= k < |errs'| && errs'[k] == None && txs[k].from == a
    {
      if a in dirty {
        var k :| 0 <= k < |errs| && errs[k] == None && txs[k].from == a;
        assert errs'[k] == None;
      } else {
        assert errs'[|errs|] == None;
      }
    }
    FirstsStay(all0, txs, errs, all, err, replaced);
    if !crowded {
      SlotsStayHeld(all0, txs, errs, all, tx, err, all', errs');
      assert FirstInSlot(all0, txs, errs', |errs|) <==> err == None && !replaced;
      FirstsGrow(all0, txs, errs, err, dirty, dirty');
    }
  }

  /** The accounts a local batch makes local: all whose member took a free slot, and only accounts of accepted ones. */
  ghost predicate LocalSoFar(all0: Lookup, txs: seq<Tx>, errs: seq<Option<Error>>, local: bool, locals0: set<Address>,
                             locals: set<Address>) {
    && |errs| <= |txs| && locals0 <= locals && (!local ==> locals == locals0)
    && (forall a | a in locals && a !in locals0 :: exists k :: 0 <= k < |errs| && errs[k] == None && txs[k].from == a)
    && (local ==> forall k | FirstInSlot(all0, txs, errs, k) :: txs[k].from in locals)
  }

  lemma LocalStep(all0: Lookup, p0: Lists, txs: seq<Tx>, errs: seq<Option<Error>>, local: bool, locals0: set<Address>,
                  crowded: bool, all: Lookup, p: Lists, err: Option<Error>, replaced: bool, locals: set<Address>,
                  full: bool, all': Lookup, p': Lists, locals': set<Address>)
    requires PooledSoFar(all0, p0, txs, errs, locals0, crowded, all, p) && |errs| < |txs|
    requires LocalSoFar(all0, txs, errs, local, locals0, locals)
    requires Added(all, p, all', p', txs[|errs|], err, replaced, locals, full)
    requires locals' == locals || (local && err == None && locals' == locals + {txs[|errs|].from})
    requires local && err == None && !replaced ==> txs[|errs|].from in locals'
    ensures LocalSoFar(all0, txs, errs + [err], local, locals0, locals')
  {
    hide Accepted, Outplaced, In, Taken;
    Appended(txs, errs, err);
    var tx, errs' := txs[|errs|], errs + [err];
    forall a | a in locals' && a !in locals0
      ensures exists k :: 0 <= k < |errs'| && errs'[k] == None && txs[k].from == a
    {
      if a in locals {
        var k :| 0 <= k < |errs| && errs[k] == None && txs[k].from == a;
        assert errs'[k] == None;
      } else {
        assert errs'[|errs|] == None;
      }
    }
    FirstsStay(all0, txs, errs, all, err, replaced);
    hide FirstInSlot;
  }

  // ---------- reinjected transactions ----------

  /** Another transaction takes the slot of `d`. */
  ghost predicate Reinjected(txs: seq<Tx>, d: Tx) {
    exists r | r in txs :: r != d && SameSlot(r, d)
  }

  lemma BatchMembers(txs: seq<Tx>, errs: seq<Option<Error>>)
    ensures forall t :: Accepted(txs, errs, t) ==> t in txs
    ensures forall k: nat, d :: Outplaced(txs, errs, k, d) ==> Reinjected(txs, d)
  {
  }

  /** A reinjected transaction is pooled, invalid, beaten or replaced in its slot, or lost to a crowded pool. */
  ghost predicate Homed(all0: Lookup, all: Lookup, txs: seq<Tx>, r: Tx, valid: Option<Error>, crowded: bool,
                        bump: nat) {
    Live(all, r) || valid.Some? || SlotTaken(all0, r, bump) || Reinjected(txs, r) || crowded
  }

  lemma MemberHomed(all0: Lookup, p0: Lists, txs: seq<Tx>, errs: seq<Option<Error>>, locals: set<Address>,
                    crowded: bool, all: Lookup, p: Lists, i: nat, valid: Option<Error>, bump: nat)
    requires PooledSoFar(all0, p0, txs, errs, locals, crowded, all, p) && |errs| == |txs| && i < |txs|
    requires Answered(all0, txs, errs[..i], txs[i], errs[i], valid, crowded && txs[i].from !in locals, bump)
    ensures Homed(all0, all, txs, txs[i], valid, crowded && txs[i].from !in locals, bump)
  {
    BatchMembers(txs, errs);
    BatchMembers(txs, errs[..i]);
    hide Outplaced, Outbids, In;
    if errs[i] == Some(KnownTransaction) && !Live(all0, txs[i]) && Accepted(txs, errs[..i], txs[i]) {
      var k :| 0 <= k < i && txs[k] == txs[i] && errs[..i][k] == None;
      assert errs[k] == None;
    }
  }

  lemma MembersHomed(all0: Lookup, p0: Lists, txs: seq<Tx>, errs: seq<Option<Error>>, locals: set<Address>,
                     crowded: bool, all: Lookup, p: Lists, chain: ChainState, gasPrice: int, usingOVM: bool, bump: nat)
    requires PooledSoFar(all0, p0, txs, errs, locals, crowded, all, p) && |errs| == |txs|
    requires forall i | 0 <= i < |txs| ::
               Answered(all0, txs, errs[..i], txs[i], errs[i],
                        Check(txs[i], txs[i].from in locals, chain, gasPrice, usingOVM),
                        crowded && txs[i].from !in locals, bump)
    ensures forall r | r in txs ::
              Homed(all0, all, txs, r, Check(r, r.from in locals, chain, gasPrice, usingOVM), crowded &&
                    r.from !in locals, bump)
  {
    hide PooledSoFar, Answered, Homed, Check;
    forall r | r in txs
      ensures Homed(all0, all, txs, r, Check(r, r.from in locals, chain, gasPrice, usingOVM), crowded &&
                    r.from !in locals,
                    bump)
    {
      var i :| 0 <= i < |txs| && txs[i] == r;
      MemberHomed(all0, p0, txs, errs, locals, crowded, all, p, i,
                  Check(r, r.from in locals, chain, gasPrice, usingOVM), bump);
    }
  }

  /** Who left for a batch, said of the transactions reinjected. */
  lemma LeftForBatch(all0: Lookup, p0: Lists, txs: seq<Tx>, errs: seq<Option<Error>>, locals: set<Address>,
                     crowded: bool, all: Lookup, p: Lists)
    requires PooledSoFar(all0, p0, txs, errs, locals, crowded, all, p)
    ensures forall t :: Live(all, t) ==> Live(all0, t) || t in txs
    ensures forall d :: Live(all0, d) && !Live(all, d) ==> Reinjected(txs, d) || (d.from !in locals && crowded)
    ensures forall t :: In(p, t) ==> In(p0, t) || t in txs
    ensures forall t :: In(p0, t) ==> In(p, t) || Reinjected(txs, t) || (t.from !in locals && crowded)
    ensures forall a, n: Uint64 | Taken(p0, a, n) && !Taken(p, a, n) :: a !in locals && crowded
  {
    BatchMembers(txs, errs);
    hide Outplaced, Accepted, Reinjected, In;
  }
}
