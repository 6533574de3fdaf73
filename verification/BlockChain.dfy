/** Head changes of the block chain (l2geth/core/blockchain.go): reorg, writeHeadBlock and the fork choice. */
module BlockChain {
  import opened Wrappers
  import opened Chain

  // ---------- the transaction lookup index ----------

  /** The transactions of a block, all under its number. */
  function TxMap(b: Block): (m: map<TxId, nat>)
    ensures forall t :: t in m <==> t in b.txs
    ensures forall t | t in m :: m[t] == b.number
  {
    Numbered(b.txs, b.number)
  }

  function Numbered(txs: seq<TxId>, number: nat): (m: map<TxId, nat>)
    ensures forall t :: t in m <==> t in txs
    ensures forall t | t in m :: m[t] == number
  {
    if txs == [] then map[] else Numbered(txs[..|txs| - 1], number)[txs[|txs| - 1] := number]
  }

  /** Every transaction on the path of `b`, with its block number. */
  ghost function IndexOf(b: Block): map<TxId, nat>
    requires Linked(b)
  {
    (if b.number == 0 then map[] else IndexOf(b.parent.block)) + TxMap(b)
  }

  /** The part of the index that lies above height `c`. */
  ghost function Segment(b: Block, c: nat): map<TxId, nat>
    requires Linked(b)
  {
    if b.number <= c then map[] else Segment(b.parent.block, c) + TxMap(b)
  }

  /** No transaction is included twice on the path. */
  ghost predicate NoRepeats(b: Block)
    requires Linked(b)
  {
    b.number == 0 || (NoRepeats(b.parent.block) && forall t | t in b.txs :: t !in IndexOf(b.parent.block))
  }

  lemma {:induction false} IndexSplit(b: Block, c: nat)
    requires Linked(b) && c <= b.number
    ensures IndexOf(b) == IndexOf(Ancestor(b, c)) + Segment(b, c)
    decreases b
  {
    hide IndexOf, Segment, Ancestor;
    AncestorStep(b, c);
    SegmentStep(b, c);
    if c < b.number {
      IndexStep(b);
      IndexSplit(b.parent.block, c);
    }
  }

  lemma IndexStep(b: Block)
    requires Linked(b) && b.number > 0
    ensures IndexOf(b) == IndexOf(b.parent.block) + TxMap(b)
  {
  }

  lemma {:induction false} SegmentFresh(b: Block, c: nat)
    requires Linked(b) && c <= b.number && NoRepeats(b)
    ensures NoRepeats(Ancestor(b, c)) && IndexOf(Ancestor(b, c)).Keys !! Segment(b, c).Keys
    decreases b
  {
    if c < b.number {
      SegmentFresh(b.parent.block, c);
      IndexSplit(b.parent.block, c);
    }
  }

  lemma SegmentStep(b: Block, c: nat)
    requires Linked(b) && c <= b.number
    ensures c == b.number ==> Segment(b, c) == map[]
    ensures c < b.number ==>
              b.parent.Of? && Linked(b.parent.block) && Segment(b, c) == Segment(b.parent.block, c) + TxMap(b)
  {
  }

  lemma {:induction false} SegmentLonger(b: Block, c: nat)
    requires Linked(b) && 0 < c <= b.number
    ensures Segment(b, c - 1).Keys == Segment(b, c).Keys + TxMap(Ancestor(b, c)).Keys
    decreases b
  {
    if c < b.number {
      SegmentLonger(b.parent.block, c);
    } else {
      assert Segment(b, c) == map[];
      assert Segment(b.parent.block, c - 1) == map[];
    }
  }

  /** The transactions that are both below the fork and on the abandoned branch, but not on the new one. */
  ghost function Twice(was: Block, block: Block, fork: nat): set<TxId>
    requires Linked(was) && Linked(block) && fork <= was.number
  {
    set t | t in Segment(was, fork) && t in IndexOf(Ancestor(was, fork)) && t !in Segment(block, fork)
  }

  /** The transactions on the path of `block` that a move of the head from `was` to `block` drops from the lookup. */
  ghost function Lost(was: Block, block: Block, fork: nat): set<TxId>
    requires Linked(was) && Linked(block) && fork <= was.number
  {
    Twice(was, block, fork) - TxMap(block).Keys
  }

  ghost predicate NothingLost(was: Block, block: Block)
    requires Linked(was) && Linked(block)
  {
    forall fork: nat | ForkPoint(was, block, fork) :: Lost(was, block, fork) == {}
  }

  /** As long as no transaction is included twice on a path, none is lost. */
  lemma NoRepeatsNothingLost(was: Block, block: Block)
    requires Linked(was) && Linked(block) && NoRepeats(was)
    ensures NothingLost(was, block)
  {
    hide Linked, Ancestor, IndexOf, Segment, NoRepeats;
    forall fork: nat | ForkPoint(was, block, fork)
      ensures Lost(was, block, fork) == {}
    {
      ForkIsCommon(was, block, fork);
      SegmentFresh(was, fork);
    }
  }

  lemma ForkIsCommon(a: Block, b: Block, c: nat)
    requires Linked(a) && Linked(b) && ForkPoint(a, b, c)
    ensures CommonAt(a, b, c) && c <= a.number && c <= b.number && Ancestor(a, c) == Ancestor(b, c)
    ensures forall n: nat | CommonAt(a, b, n) :: n <= c
  {
  }

  /** Blocks from `b` downwards, all above height `c`. */
  ghost predicate Descends(chain: seq<Block>, b: Block, c: nat)
    requires Linked(b)
  {
    c <= b.number && |chain| == b.number - c && forall k | 0 <= k < |chain| :: chain[k] == Ancestor(b, b.number - k)
  }

  /**
   Old entries stay behind above the new head exactly when the old head is higher and the new
   head sits directly on the old path, so that no other block is written on the way.
   */
  ghost predicate Overhang(was: Block, block: Block)
    requires Linked(was) && Linked(block)
  {
    was.number > block.number && (block.number == 0 || Ancestor(was, block.number - 1) == block.parent.block)
  }

  /** A branch of at most one block: the parent of the new head is on the old path. */
  ghost predicate ShortBranch(was: Block, block: Block)
    requires Linked(was) && Linked(block)
  {
    block.number == 0 || (block.number - 1 <= was.number && Ancestor(was, block.number - 1) == block.parent.block)
  }

  /** The index has an entry for every number up to `m` and no other. */
  ghost predicate Filled(canonical: map<nat, Hash>, m: nat) {
    && (forall n: nat :: n in canonical <==> n <= m)
    && (forall n | n in canonical :: canonical[n] != Zero)
  }

  function Max(a: nat, b: nat): nat {
    if a < b then b else a
  }

  /**
   The highest entry of the index after a move of the head: growing the chain leaves what was above, a
   longer branch clears it, and a short one clears only what was above the old head.
   */
  ghost function NewTop(m: nat, was: Block, block: Block): nat
    requires Linked(was) && Linked(block)
  {
    if block.parent == Of(was) then Max(m, block.number)
    else if ShortBranch(was, block) then Max(was.number, block.number)
    else block.number
  }

  datatype WriteStatus = NonStat | CanonStat | SideStat | InvalidChain

  /** A block is numbered one above the parent it names. */
  predicate Follows(b: Block) {
    b.parent.Of? ==> b.number == b.parent.block.number + 1
  }

  /** The heads of a run, from the first to the last. */
  ghost predicate Moves(heads: seq<Block>, first: Block, last: Block) {
    |heads| > 0 && heads[0] == first && heads[|heads| - 1] == last && forall i :: 0 <= i < |heads| ==> Linked(heads[i])
  }

  ghost predicate NoOverhang(heads: seq<Block>)
    requires forall i :: 0 <= i < |heads| ==> Linked(heads[i])
  {
    forall i :: 0 < i < |heads| ==> !Overhang(heads[i - 1], heads[i])
  }

  ghost predicate NoLoss(heads: seq<Block>)
    requires forall i :: 0 <= i < |heads| ==> Linked(heads[i])
  {
    forall i :: 0 < i < |heads| ==> NothingLost(heads[i - 1], heads[i])
  }

  lemma MoveOn(heads: seq<Block>, b: Block)
    requires |heads| > 0 && Linked(b) && forall i :: 0 <= i < |heads| ==> Linked(heads[i])
    ensures forall i :: 0 <= i < |heads + [b]| ==> Linked((heads + [b])[i])
    ensures NoOverhang(heads + [b]) ==> NoOverhang(heads) && !Overhang(heads[|heads| - 1], b)
    ensures NoLoss(heads + [b]) ==> NoLoss(heads) && NothingLost(heads[|heads| - 1], b)
  {
    hide Linked, Overhang, NothingLost;
    var all := heads + [b];
    assert forall i :: 0 <= i < |heads| ==> all[i] == heads[i];
    assert all[|heads|] == b;
    if NoOverhang(all) {
      assert !Overhang(all[|heads| - 1], all[|heads|]);
    }
    if NoLoss(all) {
      assert NothingLost(all[|heads| - 1], all[|heads|]);
    }
  }

  /** The highest entry of the index after a run through `heads` that started without entries above. */
  ghost function Height(heads: seq<Block>): nat
    requires |heads| > 0 && forall i :: 0 <= i < |heads| ==> Linked(heads[i])
  {
    if |heads| == 1 then heads[0].number
    else NewTop(Height(heads[..|heads| - 1]), heads[|heads| - 2], heads[|heads| - 1])
  }

  /** The head at `i` is the last one that reached the height `n`. */
  ghost predicate LastAt(heads: seq<Block>, n: nat, i: int) {
    0 <= i < |heads| && n <= heads[i].number && forall j :: i < j < |heads| ==> heads[j].number < n
  }

  /** Each entry of the index is on the path of the last head that reached its height. */
  ghost predicate IndexOfRun(heads: seq<Block>, canonical: map<nat, Hash>)
    requires |heads| > 0 && forall i :: 0 <= i < |heads| ==> Linked(heads[i])
  {
    && Filled(canonical, Height(heads))
    && forall n: nat | n in canonical :: exists i :: LastAt(heads, n, i) && canonical[n] == Of(Ancestor(heads[i], n))
  }

  lemma RunBegins(canonical: map<nat, Hash>, b: Block)
    requires Linked(b) && OnPath(canonical, b) && NothingAbove(canonical, b)
    ensures IndexOfRun([b], canonical)
  {
    hide Linked, Ancestor;
    forall n: nat | n in canonical
      ensures exists i :: LastAt([b], n, i) && canonical[n] == Of(Ancestor([b][i], n))
    {
      assert LastAt([b], n, 0);
    }
  }

  lemma RunMoves(heads: seq<Block>, b: Block, before: map<nat, Hash>, canonical: map<nat, Hash>)
    requires |heads| > 0 && Linked(b) && forall i :: 0 <= i < |heads| ==> Linked(heads[i])
    requires IndexOfRun(heads, before) && OnPath(canonical, b)
    requires Filled(canonical, NewTop(Height(heads), heads[|heads| - 1], b))
    requires forall n: nat | n > b.number && n in canonical :: n in before && canonical[n] == before[n]
    ensures forall i :: 0 <= i < |heads + [b]| ==> Linked((heads + [b])[i])
    ensures IndexOfRun(heads + [b], canonical)
  {
    hide Linked, Ancestor, NewTop;
    var all := heads + [b];
    assert all[..|all| - 1] == heads && all[|heads|] == b;
    forall n: nat | n in canonical
      ensures exists i :: LastAt(all, n, i) && canonical[n] == Of(Ancestor(all[i], n))
    {
      if n <= b.number {
        assert LastAt(all, n, |heads|);
      } else {
        var i :| LastAt(heads, n, i) && before[n] == Of(Ancestor(heads[i], n));
        assert LastAt(all, n, i) && all[i] == heads[i];
      }
    }
  }

  // ---------- what a run of insertions stores ----------

  /** The blocks that became the head, in order. */
  function Adopted(writes: seq<Write>, statuses: seq<WriteStatus>): seq<Block>
    requires |statuses| <= |writes|
  {
    if statuses == [] then []
    else
      var last := |statuses| - 1;
      Adopted(writes, statuses[..last]) + if statuses[last] == CanonStat then [writes[last].block] else []
  }

  /** A block of an insertion that was not refused. */
  ghost predicate Inserted(writes: seq<Write>, statuses: seq<WriteStatus>, h: Hash) {
    exists i :: 0 <= i < |statuses| <= |writes| && statuses[i] != NonStat && h == Of(writes[i].block)
  }

  /**
   What a run of insertions has stored, and which it refused: none that fits on what was stored at the start,
   and all that do not fit on what is stored now. The heads are the first one and those adopted.
   */
  ghost predicate Stores(writes: seq<Write>, statuses: seq<WriteStatus>, heads: seq<Block>, before: map<Hash, Block>,
                         blocks: map<Hash, Block>) {
    && |statuses| <= |writes| && before.Keys <= blocks.Keys
    && (forall i :: 0 <= i < |statuses| && writes[i].block.parent in before && Follows(writes[i].block) ==>
          statuses[i] != NonStat)
    && (forall i :: 0 <= i < |statuses| && statuses[i] != NonStat ==>
          writes[i].block.parent in blocks && Follows(writes[i].block) && Of(writes[i].block) in blocks)
    && (forall h | h in blocks :: h in before || Inserted(writes, statuses, h))
    && |heads| > 0 && heads[1..] == Adopted(writes, statuses)
  }

  lemma InsertedLater(writes: seq<Write>, statuses: seq<WriteStatus>, status: WriteStatus)
    requires |statuses| < |writes|
    ensures forall h :: Inserted(writes, statuses, h) ==> Inserted(writes, statuses + [status], h)
    ensures status != NonStat ==> Inserted(writes, statuses + [status], Of(writes[|statuses|].block))
  {
    var statuses' := statuses + [status];
    forall h | Inserted(writes, statuses, h)
      ensures Inserted(writes, statuses', h)
    {
      var i :| 0 <= i < |statuses| <= |writes| && statuses[i] != NonStat && h == Of(writes[i].block);
      assert statuses'[i] != NonStat;
    }
    assert statuses'[|statuses|] == status;
  }

  lemma StoresStep(writes: seq<Write>, statuses: seq<WriteStatus>, heads: seq<Block>, before: map<Hash, Block>,
                   blocks: map<Hash, Block>, status: WriteStatus, blocks': map<Hash, Block>)
    requires Stores(writes, statuses, heads, before, blocks) && |statuses| < |writes|
    requires status == NonStat <==> !(writes[|statuses|].block.parent in blocks && Follows(writes[|statuses|].block))
    requires blocks' == if status == NonStat then blocks
                        else blocks[Of(writes[|statuses|].block) := writes[|statuses|].block]
    ensures Stores(writes, statuses + [status],
                   if status == CanonStat then heads + [writes[|statuses|].block] else heads, before, blocks')
  {
    hide Inserted;
    InsertedLater(writes, statuses, status);
    assert (statuses + [status])[..|statuses|] == statuses;
    if status == CanonStat {
      assert (heads + [writes[|statuses|].block])[1..] == heads[1..] + [writes[|statuses|].block];
    }
  }

  lemma NoneStored(writes: seq<Write>, b: Block, blocks: map<Hash, Block>)
    ensures Stores(writes, [], [b], blocks, blocks)
  {
  }

  lemma RunFilled(heads: seq<Block>, canonical: map<nat, Hash>)
    requires |heads| > 0 && forall i :: 0 <= i < |heads| ==> Linked(heads[i])
    requires IndexOfRun(heads, canonical)
    ensures Filled(canonical, Height(heads))
  {
  }

  /** Without overhangs the highest entry is always the head's. */
  lemma {:induction false} NoOverhangTop(heads: seq<Block>)
    requires |heads| > 0 && forall i :: 0 <= i < |heads| ==> Linked(heads[i])
    ensures NoOverhang(heads) ==> Height(heads) == heads[|heads| - 1].number
    decreases |heads|
  {
    if |heads| > 1 && NoOverhang(heads) {
      var front, was, block := heads[..|heads| - 1], heads[|heads| - 2], heads[|heads| - 1];
      assert forall i :: 0 <= i < |front| ==> front[i] == heads[i];
      NoOverhangTop(front);
      assert !Overhang(was, block);
    }
  }

  lemma TopIsHead(heads: seq<Block>, canonical: map<nat, Hash>, head: Block)
    requires |heads| > 0 && forall i :: 0 <= i < |heads| ==> Linked(heads[i])
    requires Linked(head) && OnPath(canonical, head) && IndexOfRun(heads, canonical)
    ensures NothingAbove(canonical, head) <==> Height(heads) == head.number
  {
    hide Linked, Ancestor, Height;
    assert head.number in canonical;
    assert Height(heads) in canonical;
  }

  /** A block to write, with what decides between heads of equal difficulty and number. */
  datatype Write = Write(block: Block, keepCurrent: bool, keepBlock: bool, coin: bool)

  /** All blocks of the path down to the first one are stored. */
  ghost predicate Known(b: Block, blocks: map<Hash, Block>)
    requires Linked(b)
  {
    forall n: nat | n <= b.number :: Of(Ancestor(b, n)) in blocks && blocks[Of(Ancestor(b, n))] == Ancestor(b, n)
  }

  lemma StepDown(start: Block, b: Block, blocks: map<Hash, Block>)
    requires Linked(start) && 0 < b.number <= start.number && b == Ancestor(start, b.number)
    ensures b.parent == Of(Ancestor(start, b.number - 1)) && b.parent.block.number == b.number - 1
    ensures Segment(start, b.number - 1).Keys == Segment(start, b.number).Keys + TxMap(b).Keys
    ensures Known(start, blocks) ==> b.parent in blocks && blocks[b.parent] == b.parent.block
  {
    AncestorParent(start, b.number);
    SegmentLonger(start, b.number);
    assert Known(start, blocks) ==> Of(Ancestor(start, b.number - 1)) in blocks;
  }

  lemma NoParent(b: Block)
    requires Linked(b) && b.number == 0
    ensures b.parent == Zero
  {
  }

  /** The index follows `head` up to height `top` and is the old one above. */
  ghost predicate Spliced(before: map<nat, Hash>, after: map<nat, Hash>, head: Block, top: nat)
    requires Linked(head) && top <= head.number
  {
    && (forall n: nat | n <= top :: n in after && after[n] == Of(Ancestor(head, n)))
    && (forall n: nat | n > top :: n in after <==> n in before)
    && (forall n: nat | n > top && n in after :: after[n] == before[n])
  }

  lemma SplicedAbove(before: map<nat, Hash>, after: map<nat, Hash>, head: Block, top: nat)
    requires Linked(head) && top <= head.number && Spliced(before, after, head, top)
    ensures forall n: nat | n > top && n in after :: n in before && after[n] == before[n]
  {
  }

  lemma SpliceStart(canonical: map<nat, Hash>, oldHead: Block, newHead: Block, fork: nat)
    requires Linked(oldHead) && Linked(newHead) && CommonAt(oldHead, newHead, fork) && OnPath(canonical, oldHead)
    ensures Spliced(canonical, canonical, newHead, fork)
    ensures Segment(Ancestor(newHead, fork), fork) == map[]
  {
    forall n: nat | n <= fork
      ensures Ancestor(oldHead, n) == Ancestor(newHead, n)
    {
      MeetBelow(oldHead, newHead, fork, n);
    }
  }

  lemma SpliceStep(before: map<nat, Hash>, canonical: map<nat, Hash>, head: Block, n: nat, fork: nat)
    requires Linked(head) && fork < n <= head.number && Spliced(before, canonical, head, n - 1)
    ensures Spliced(before, canonical[n := Of(Ancestor(head, n))], head, n)
    ensures Segment(Ancestor(head, n), fork) == Segment(Ancestor(head, n - 1), fork) + TxMap(Ancestor(head, n))
  {
    AncestorParent(head, n);
    SegmentStep(Ancestor(head, n), fork);
  }

  /** How far the new branch is written before its head block. */
  ghost function Top(newHead: Block, fork: nat): nat {
    if newHead.number <= fork then fork else newHead.number - 1
  }

  ghost function Bound(s: set<nat>): (b: nat)
    ensures forall n | n in s :: n < b
    decreases |s|
  {
    if s == {} then 0
    else
      var x :| x in s;
      var rest := Bound(s - {x});
      assert forall n | n in s :: n == x || n in s - {x};
      if rest <= x then x + 1 else rest
  }

  lemma StartWalk(oldHead: Block, newHead: Block)
    requires Linked(oldHead) && Linked(newHead)
    ensures Ancestor(oldHead, oldHead.number) == oldHead && Ancestor(newHead, newHead.number) == newHead
    ensures Descends([], newHead, newHead.number) && Segment(oldHead, oldHead.number) == map[]
  {
  }

  /** Deleting what left the chain, except what was written again, gives the index of the new branch so far. */
  lemma Purged(oldHead: Block, newHead: Block, fork: nat, top: nat, deleted: seq<TxId>, added: seq<TxId>,
               gone: set<TxId>)
    requires Linked(oldHead) && Linked(newHead) && CommonAt(oldHead, newHead, fork)
    requires fork <= top <= newHead.number
    requires forall t :: t in deleted <==> t in Segment(oldHead, fork)
    requires forall t :: t in added <==> t in Segment(Ancestor(newHead, top), fork)
    requires forall t :: t in gone <==> t in deleted && t !in added
    ensures IndexOf(oldHead) + Segment(Ancestor(newHead, top), fork) - gone ==
            IndexOf(Ancestor(newHead, top)) - Twice(oldHead, Ancestor(newHead, top), fork)
  {
    hide Linked, Ancestor, Segment, IndexOf;
    IndexSplit(oldHead, fork);
    IndexSplit(Ancestor(newHead, top), fork);
    AncestorOfAncestor(newHead, fork, top);
  }

  lemma Trimmed(before: map<nat, Hash>, spliced: map<nat, Hash>, oldHead: Block, newHead: Block, fork: nat, top: nat,
                stale: set<nat>, hole: nat)
    requires Linked(oldHead) && Linked(newHead) && CommonAt(oldHead, newHead, fork) && OnPath(before, oldHead)
    requires top == Top(newHead, fork) <= newHead.number && Spliced(before, spliced, newHead, top)
    requires var first := 1 + if top == fork then oldHead.number else top;
             && first <= hole && (hole !in spliced || spliced[hole] == Zero)
             && (forall n :: n in stale <==> first <= n < hole)
             && (forall n | first <= n < hole :: n in spliced)
    ensures forall n: nat | n <= top :: n in spliced - stale && (spliced - stale)[n] == Of(Ancestor(newHead, n))
    ensures NothingAbove(before, oldHead) ==> forall n: nat | n > top ::
              n in spliced - stale <==> newHead.number < fork + 2 && n <= oldHead.number
  {
    hide Linked, Ancestor;
  }

  lemma FilledTrim(before: map<nat, Hash>, spliced: map<nat, Hash>, oldHead: Block, newHead: Block, fork: nat,
                   top: nat, stale: set<nat>, hole: nat, m: nat)
    requires Linked(oldHead) && Linked(newHead) && CommonAt(oldHead, newHead, fork) && OnPath(before, oldHead)
    requires top == Top(newHead, fork) <= newHead.number && Spliced(before, spliced, newHead, top)
    requires var first := 1 + if top == fork then oldHead.number else top;
             && first <= hole && (hole !in spliced || spliced[hole] == Zero)
             && (forall n :: n in stale <==> first <= n < hole)
    requires Filled(before, m)
    ensures Filled(spliced - stale, if top == fork then oldHead.number else top)
  {
    hide Linked, Ancestor;
    assert oldHead.number in before;
    var last := if top == fork then oldHead.number else top;
    forall n: nat
      ensures n in spliced - stale <==> n <= last
    {
      if n > last && n in spliced {
        assert n <= m && hole > n;
      }
    }
  }

  lemma FilledWrite(canonical: map<nat, Hash>, m: nat, block: Block)
    requires Filled(canonical, m) && block.number <= m + 1
    ensures Filled(canonical[block.number := Of(block)], Max(m, block.number))
  {
  }

  lemma ShortAtFork(was: Block, block: Block, fork: nat)
    requires Linked(was) && Linked(block) && ForkPoint(was, block, fork)
    ensures ShortBranch(was, block) <==> block.number < fork + 2
    ensures block.number < fork + 2 ==> block.number <= was.number + 1
  {
    hide Linked, Ancestor, ForkPoint;
    ForkIsCommon(was, block, fork);
    if block.number > 0 && block.number - 1 <= was.number {
      AncestorStep(block, block.number - 1);
      AncestorStep(block.parent.block, block.number - 1);
      if block.number < fork + 2 {
        MeetBelow(was, block, fork, block.number - 1);
      } else {
        assert !CommonAt(was, block, block.number - 1);
      }
    }
  }

  lemma BranchTop(before: map<nat, Hash>, canonical: map<nat, Hash>, was: Block, block: Block, fork: nat)
    requires Linked(was) && Linked(block) && ForkPoint(was, block, fork) && block.parent != Of(was)
    requires forall m: nat | Filled(before, m) ::
               Filled(canonical, if block.number < fork + 2 then was.number else block.number - 1)
    ensures forall m: nat | Filled(before, m) :: Filled(canonical[block.number := Of(block)], NewTop(m, was, block))
  {
    hide Linked, Ancestor, ForkPoint, ShortBranch, Filled;
    ShortAtFork(was, block, fork);
    forall m: nat | Filled(before, m)
      ensures Filled(canonical[block.number := Of(block)], NewTop(m, was, block))
    {
      FilledWrite(canonical, if block.number < fork + 2 then was.number else block.number - 1, block);
    }
  }

  lemma GrownTop(canonical: map<nat, Hash>, was: Block, block: Block)
    requires Linked(was) && Linked(block) && OnPath(canonical, was) && block.parent == Of(was)
    ensures forall m: nat | Filled(canonical, m) :: Filled(canonical[block.number := Of(block)], NewTop(m, was, block))
  {
    hide Ancestor, ShortBranch;
    assert was.number in canonical;
    forall m: nat | Filled(canonical, m)
      ensures Filled(canonical[block.number := Of(block)], NewTop(m, was, block))
    {
      FilledWrite(canonical, m, block);
    }
  }

  /** The fork choice: more total difficulty; on a tie the lower block, then preservation and chance. */
  ghost predicate Better(block: Block, current: Block, keepCurrent: bool, keepBlock: bool, coin: bool)
    requires Linked(block) && Linked(current)
  {
    || PathTd(block) > PathTd(current)
    || (PathTd(block) == PathTd(current) &&
        (block.number < current.number || (block.number == current.number && !keepCurrent && (keepBlock || coin))))
  }

  /** The index entry at the height of a new head before it is written, and where the head is the old one. */
  lemma EntryAtHead(canonical: map<nat, Hash>, was: Block, block: Block, fork: nat)
    requires Linked(was) && Linked(block) && ForkPoint(was, block, fork) && OnPath(canonical, was)
    ensures block.number > Top(block, fork) || (block.number in canonical && canonical[block.number] == Of(block))
    ensures block == was ==> Top(block, fork) == fork == block.number && Ancestor(block, block.number) == block
  {
    hide Linked;
    ForkIsCommon(was, block, fork);
    AncestorStep(block, block.number);
    if block == was {
      assert CommonAt(was, block, block.number);
    }
  }

  ghost predicate NamesStored(canonical: map<nat, Hash>, blocks: map<Hash, Block>) {
    forall n | n in canonical :: canonical[n] in blocks
  }

  lemma MoreStored(canonical: map<nat, Hash>, blocks: map<Hash, Block>, block: Block)
    ensures NamesStored(canonical, blocks) ==> NamesStored(canonical, blocks[Of(block) := block])
  {
  }

  /** The index does not name a better block than the head yet, unless the head itself is written again. */
  lemma NotIndexed(blocks: map<Hash, Block>, genesis: Block, canonical: map<nat, Hash>, was: Block, block: Block)
    requires Tree(blocks, genesis) && Linked(was) && Linked(block) && OnPath(canonical, was)
    requires NamesStored(canonical, blocks)
    requires forall h | h in blocks :: PathTd(h.block) <= PathTd(was)
    requires forall h | h in blocks && PathTd(h.block) == PathTd(was) :: was.number <= h.block.number
    requires PathTd(block) > PathTd(was) || (PathTd(block) == PathTd(was) && block.number <= was.number)
    ensures block.number in canonical && canonical[block.number] == Of(block) ==> block == was
  {
    hide PathTd, Linked;
    AncestorStep(was, was.number);
  }

  lemma StillStored(before: map<nat, Hash>, canonical: map<nat, Hash>, blocks: map<Hash, Block>, genesis: Block,
                    block: Block)
    requires Tree(blocks, genesis) && Of(block) in blocks && Linked(block) && OnPath(canonical, block)
    requires NamesStored(before, blocks)
    requires forall n: nat | n > block.number && n in canonical :: n in before && canonical[n] == before[n]
    ensures NamesStored(canonical, blocks)
  {
    forall n | n in canonical
      ensures canonical[n] in blocks
    {
      if n <= block.number {
        AncestorStored(blocks, genesis, block, n);
      }
    }
  }

  lemma FullTie(block: Block, current: Block, keepCurrent: bool, keepBlock: bool, coin: bool)
    requires Linked(block) && Linked(current)
    ensures PathTd(block) == PathTd(current) && block.number == current.number ==>
              (Better(block, current, keepCurrent, keepBlock, coin) <==>
               if keepCurrent then false else if keepBlock then true else coin)
  {
  }

  lemma HeadOnTop(canonical: map<nat, Hash>, was: Block, block: Block)
    requires Linked(was) && Linked(block) && OnPath(canonical, was) && block.parent == Of(was)
    ensures OnPath(canonical[block.number := Of(block)], block) && IndexOf(block) == IndexOf(was) + TxMap(block)
    ensures NothingAbove(canonical, was) ==> NothingAbove(canonical[block.number := Of(block)], block)
    ensures !Overhang(was, block) && NothingLost(was, block) && block != was
  {
    hide Ancestor, IndexOf, Segment;
    AncestorStep(block, was.number);
    AncestorStep(was, was.number);
    IndexStep(block);
    SegmentStep(was, was.number);
    forall fork: nat | ForkPoint(was, block, fork)
      ensures Lost(was, block, fork) == {}
    {
      ForkIsCommon(was, block, fork);
      assert CommonAt(was, block, was.number);
    }
    forall n: nat | n <= block.number
      ensures n < block.number ==> Ancestor(block, n) == Ancestor(was, n)
      ensures n == block.number ==> Ancestor(block, n) == block
    {
      AncestorStep(block, n);
    }
  }

  lemma HeadOnBranch(before: map<nat, Hash>, canonical: map<nat, Hash>, was: Block, block: Block, fork: nat)
    requires Linked(was) && Linked(block) && ForkPoint(was, block, fork)
    requires forall n: nat | n <= Top(block, fork) :: n in canonical && canonical[n] == Of(Ancestor(block, n))
    requires NothingAbove(before, was) ==> forall n: nat | n > Top(block, fork) ::
               n in canonical <==> block.number < fork + 2 && n <= was.number
    ensures OnPath(canonical[block.number := Of(block)], block)
    ensures NothingAbove(before, was) ==>
              (NothingAbove(canonical[block.number := Of(block)], block) <==> !Overhang(was, block))
  {
    hide Linked, Ancestor, ForkPoint, Overhang;
    ForkIsCommon(was, block, fork);
    AncestorStep(block, block.number);
    OverhangAtFork(was, block, fork);
    if NothingAbove(before, was) && Overhang(was, block) {
      assert was.number in canonical[block.number := Of(block)];
    }
  }

  /** The block above which the new head is written last. */
  lemma HeadParent(block: Block, fork: nat)
    requires Linked(block) && fork <= block.number
    ensures block.number == fork ==> Ancestor(block, Top(block, fork)) == block
    ensures block.number > fork ==>
              && block.parent.Of? && Linked(block.parent.block)
              && Ancestor(block, Top(block, fork)) == block.parent.block
              && IndexOf(block) == IndexOf(block.parent.block) + TxMap(block)
              && Segment(block, fork) == Segment(block.parent.block, fork) + TxMap(block)
  {
    hide Linked, Ancestor, IndexOf, Segment;
    AncestorStep(block, block.number);
    SegmentStep(block, fork);
    if block.number > fork {
      AncestorStep(block, block.number - 1);
      AncestorStep(block.parent.block, block.number - 1);
      IndexStep(block);
    }
  }

  /** What the lookup holds after the head block was written too. */
  lemma HeadLookup(was: Block, block: Block, fork: nat)
    requires Linked(was) && Linked(block) && ForkPoint(was, block, fork)
    ensures var middle := Ancestor(block, Top(block, fork));
            && IndexOf(middle) - Twice(was, middle, fork) + TxMap(block) == IndexOf(block) - Lost(was, block, fork)
    ensures IndexOf(block) - Lost(was, block, fork) == IndexOf(block) <==> NothingLost(was, block)
  {
    hide Linked, Ancestor, IndexOf, Segment, ForkPoint;
    ForkIsCommon(was, block, fork);
    HeadParent(block, fork);
    if block.number == fork {
      TwiceIndexed(block);
    }
    IndexSplit(block, fork);
    ForkUnique(was, block, fork);
    assert Lost(was, block, fork) <= IndexOf(block).Keys;
    assert Lost(was, block, fork) != {} ==> exists t :: t in Lost(was, block, fork) && t in IndexOf(block);
  }

  lemma ForkUnique(a: Block, b: Block, c: nat)
    requires Linked(a) && Linked(b) && ForkPoint(a, b, c)
    ensures forall d: nat | ForkPoint(a, b, d) :: d == c
  {
    hide Linked, Ancestor;
  }

  lemma TwiceIndexed(b: Block)
    requires Linked(b)
    ensures IndexOf(b) + TxMap(b) == IndexOf(b)
  {
  }

  lemma OverhangAtFork(was: Block, block: Block, fork: nat)
    requires Linked(was) && Linked(block) && ForkPoint(was, block, fork)
    ensures Overhang(was, block) <==> was.number > block.number && block.number < fork + 2
  {
    hide Linked, Ancestor, ForkPoint;
    ForkIsCommon(was, block, fork);
    if block.number > 0 && was.number > block.number {
      AncestorStep(block, block.number - 1);
      AncestorStep(block.parent.block, block.number - 1);
      if block.number < fork + 2 {
        MeetBelow(was, block, fork, block.number - 1);
      } else {
        assert !CommonAt(was, block, block.number - 1);
      }
    }
  }

  lemma StoreStep(blocks: map<Hash, Block>, tds: map<Hash, int>, genesis: Block, block: Block)
    requires Weighed(blocks, tds) && block.parent in tds && block.parent.Of? &&
             block.parent.block.number == block.number - 1
    ensures Linked(block) && PathTd(block) == block.difficulty + tds[block.parent]
    ensures Weighed(blocks[Of(block) := block], tds[Of(block) := PathTd(block)])
    ensures Tree(blocks, genesis) ==> Tree(blocks[Of(block) := block], genesis)
  {
    hide Linked, PathTd;
    OnTop(block);
  }

  lemma BothKnown(blocks: map<Hash, Block>, genesis: Block, a: Block, b: Block)
    requires Of(a) in blocks && Of(b) in blocks && Linked(a) && Linked(b)
    ensures Tree(blocks, genesis) ==> Known(a, blocks) && Known(b, blocks) && Ancestor(a, 0) == Ancestor(b, 0)
  {
    hide Linked, Ancestor;
    if Tree(blocks, genesis) {
      forall n: nat
        ensures n <= a.number ==> Of(Ancestor(a, n)) in blocks
        ensures n <= b.number ==> Of(Ancestor(b, n)) in blocks
      {
        if n <= a.number {
          AncestorStored(blocks, genesis, a, n);
        }
        if n <= b.number {
          AncestorStored(blocks, genesis, b, n);
        }
      }
      AncestorStored(blocks, genesis, a, 0);
      AncestorStored(blocks, genesis, b, 0);
    }
  }

  lemma LossAtFork(genesis: Block, low: Block, repeat: Block, heavy: Block)
    requires genesis == Block(Zero, 0, 1, [], 0) && low == Block(Of(genesis), 1, 1, [7], 0)
    requires repeat == Block(Of(low), 2, 1, [7], 0) && heavy == Block(Of(low), 2, 9, [], 1)
    ensures Linked(low) && Linked(repeat) && Linked(heavy)
    ensures NothingLost(genesis, low) && NothingLost(low, repeat) && !NothingLost(repeat, heavy)
  {
    assert Linked(genesis) && Linked(low) && Linked(repeat) && Linked(heavy);
    assert IndexOf(genesis) == map[] && NoRepeats(low);
    NoRepeatsNothingLost(genesis, low);
    NoRepeatsNothingLost(low, repeat);
    AncestorStep(repeat, 1);
    AncestorStep(heavy, 1);
    AncestorStep(low, 1);
    assert ForkPoint(repeat, heavy, 1) by {
      AncestorStep(repeat, 2);
      AncestorStep(heavy, 2);
      assert CommonAt(repeat, heavy, 1) && !CommonAt(repeat, heavy, 2);
    }
    SegmentStep(repeat, 1);
    SegmentStep(heavy, 1);
    assert 7 in TxMap(repeat) && 7 in TxMap(low) && 7 in IndexOf(low);
    assert Segment(low, 1) == map[] && TxMap(heavy) == map[];
    assert 7 in Lost(repeat, heavy, 1);
  }

  class BlockChain {
    const genesis: Block
    var blocks: map<Hash, Block>
    var tds: map<Hash, int>
    var canonical: map<nat, Hash>
    var lookup: map<TxId, nat>
    // head markers: full block, header and fast-sync block, in memory
    var currentBlock: Block
    var currentHeader: Block
    var currentFastBlock: Block

    function ReadCanonicalHash(n: nat): Hash
      reads this
    {
      if n in canonical then canonical[n] else Zero
    }

    function GetBlock(h: Hash, number: int): Option<Block>
      reads this
    {
      if h.Of? && h.block.number == number && h in blocks && blocks[h] == h.block then Some(blocks[h]) else None
    }

    /** Makes `block` the head; the header and fast-sync markers follow unless it was canonical already. */
    method WriteHeadBlock(block: Block)
      modifies this`canonical, this`lookup, this`currentBlock, this`currentHeader, this`currentFastBlock
      ensures canonical == old(canonical)[block.number := Of(block)]
      ensures lookup == old(lookup) + TxMap(block)
      ensures currentBlock == block
      ensures old(ReadCanonicalHash(block.number)) != Of(block) ==> currentHeader == block && currentFastBlock == block
      ensures old(ReadCanonicalHash(block.number)) == Of(block) ==>
                currentHeader == old(currentHeader) && currentFastBlock == old(currentFastBlock)
    {
      var updateHeads := ReadCanonicalHash(block.number) != Of(block);
      canonical := canonical[block.number := Of(block)];
      lookup := lookup + TxMap(block);
      if updateHeads {
        currentHeader, currentFastBlock := block, block;
      }
      currentBlock := block;
    }

    /** Walks a chain down to the height `target`, collecting blocks and transactions. */
    method WalkDown(start: Block, target: nat) returns (end: Option<Block>, chain: seq<Block>, txs: seq<TxId>)
      requires Linked(start) && target <= start.number
      ensures end.Some? ==> end.value == Ancestor(start, target) && Descends(chain, start, target)
      ensures end.Some? ==> forall t :: t in txs <==> t in Segment(start, target)
      ensures end == None ==> !Known(start, blocks)
    {
      hide Linked, Ancestor, Segment, Known;
      AncestorStep(start, start.number);
      SegmentStep(start, start.number);
      end, chain, txs := Some(start), [], [];
      while end.Some? && end.value.number != target
        invariant end.Some? ==>
                    target <= end.value.number <= start.number && end.value == Ancestor(start, end.value.number)
        invariant end.Some? ==> Descends(chain, start, end.value.number)
        invariant end.Some? ==> forall t :: t in txs <==> t in Segment(start, end.value.number)
        invariant end == None ==> !Known(start, blocks)
        decreases if end.Some? then end.value.number + 1 else 0
      {
        var b := end.value;
        StepDown(start, b, blocks);
        chain, txs := chain + [b], txs + b.txs;
        end := GetBlock(b.parent, b.number - 1);
      }
    }

    /** Walks both chains down in step until they meet. */
    method Meet(oldHead: Block, newHead: Block, oldBlock: Block, newBlock: Block, chain: seq<Block>, txs: seq<TxId>)
      returns (found: bool, newChain: seq<Block>, deleted: seq<TxId>, ghost fork: nat)
      requires Linked(oldHead) && Linked(newHead) && oldBlock.number == newBlock.number
      requires oldBlock.number <= oldHead.number && oldBlock == Ancestor(oldHead, oldBlock.number)
      requires newBlock.number <= newHead.number && newBlock == Ancestor(newHead, newBlock.number)
      requires oldBlock.number == oldHead.number || newBlock.number == newHead.number
      requires Descends(chain, newHead, newBlock.number)
      requires forall t :: t in txs <==> t in Segment(oldHead, oldBlock.number)
      ensures found ==> ForkPoint(oldHead, newHead, fork) && Descends(newChain, newHead, fork)
      ensures found ==> forall t :: t in deleted <==> t in Segment(oldHead, fork)
      ensures !found ==>
                !Known(oldHead, blocks) || !Known(newHead, blocks) || Ancestor(oldHead, 0) != Ancestor(newHead, 0)
    {
      hide Linked, Ancestor, Segment, Known;
      newChain, deleted := chain, txs;
      var ob, nb := oldBlock, newBlock;
      while ob != nb
        invariant ob.number == nb.number <= oldBlock.number
        invariant ob == Ancestor(oldHead, ob.number) && nb == Ancestor(newHead, nb.number)
        invariant forall n: nat | ob.number < n && CommonAt(oldHead, newHead, n) :: false
        invariant Descends(newChain, newHead, nb.number)
        invariant forall t :: t in deleted <==> t in Segment(oldHead, ob.number)
        decreases ob.number
      {
        newChain, deleted := newChain + [nb], deleted + ob.txs;
        if ob.number > 0 {
          StepDown(oldHead, ob, blocks);
          StepDown(newHead, nb, blocks);
        } else {
          NoParent(ob);
          NoParent(nb);
        }
        var op := GetBlock(ob.parent, ob.number - 1);
        if op == None {
          return false, newChain, deleted, 0;
        }
        var np := GetBlock(nb.parent, nb.number - 1);
        if np == None {
          return false, newChain, deleted, 0;
        }
        ob, nb := op.value, np.value;
      }
      found, fork := true, ob.number;
    }

    /** Writes the new branch in ascending order, all but its head block. */
    method Reinsert(newChain: seq<Block>, ghost oldHead: Block, ghost newHead: Block, ghost fork: nat)
      returns (added: seq<TxId>, ghost top: nat)
      requires Linked(oldHead) && Linked(newHead) && CommonAt(oldHead, newHead, fork) &&
               Descends(newChain, newHead, fork)
      requires OnPath(canonical, oldHead)
      modifies this`canonical, this`lookup, this`currentBlock, this`currentHeader, this`currentFastBlock
      ensures top == if newHead.number == fork then fork else newHead.number - 1
      ensures Spliced(old(canonical), canonical, newHead, top)
      ensures lookup == old(lookup) + Segment(Ancestor(newHead, top), fork)
      ensures forall t :: t in added <==> t in Segment(Ancestor(newHead, top), fork)
      ensures currentBlock == if top == fork then old(currentBlock) else Ancestor(newHead, top)
      ensures top == fork ==> unchanged(`currentHeader, `currentFastBlock)
    {
      hide Linked, Ancestor, Segment, IndexOf, OnPath, Spliced, CommonAt;
      added := [];
      var i := |newChain|;
      SpliceStart(canonical, oldHead, newHead, fork);
      while i > 1
        invariant newHead.number == fork || 1 <= i
        invariant 0 <= i <= |newChain| == newHead.number - fork
        invariant Spliced(old(canonical), canonical, newHead, newHead.number - i)
        invariant lookup == old(lookup) + Segment(Ancestor(newHead, newHead.number - i), fork)
        invariant forall t :: t in added <==> t in Segment(Ancestor(newHead, newHead.number - i), fork)
        invariant currentBlock == if i == |newChain| then old(currentBlock) else Ancestor(newHead, newHead.number - i)
        invariant i == |newChain| ==> unchanged(`currentHeader, `currentFastBlock)
      {
        i := i - 1;
        SpliceStep(old(canonical), canonical, newHead, newHead.number - i, fork);
        WriteHeadBlock(newChain[i]);
        added := added + newChain[i].txs;
      }
      top := newHead.number - i;
    }

    /** The numbers from `first` up to the first hole of the index. */
    method RunAbove(first: nat) returns (stale: set<nat>, ghost hole: nat)
      ensures first <= hole && (hole !in canonical || canonical[hole] == Zero)
      ensures forall n :: n in stale <==> first <= n < hole
      ensures forall n | first <= n < hole :: n in canonical
    {
      ghost var limit: int := Bound(canonical.Keys);
      stale := {};
      var i := first;
      while ReadCanonicalHash(i) != Zero
        invariant first <= i
        invariant forall n :: n in stale <==> first <= n < i
        invariant forall n | first <= n < i :: n in canonical
        decreases limit - i
      {
        stale := stale + {i};
        i := i + 1;
      }
      hole := i;
    }

    /**
     Re-routes the index to the branch of `newHead`, short of its head block, starting from the
     path of the current head. It fails only when a block of one of the two paths is missing.
     */
    method Reorg(oldHead: Block, newHead: Block) returns (ok: bool, ghost fork: nat)
      requires Linked(oldHead) && Linked(newHead) && currentBlock == oldHead
      requires OnPath(canonical, oldHead)
      modifies this`canonical, this`lookup, this`currentBlock, this`currentHeader, this`currentFastBlock
      ensures !ok ==> canonical == old(canonical) && lookup == old(lookup) && currentBlock == old(currentBlock)
      ensures !ok ==> !Known(oldHead, blocks) || !Known(newHead, blocks) || Ancestor(oldHead, 0) != Ancestor(newHead, 0)
      ensures ok ==>
                var top := Top(newHead, fork);
                && ForkPoint(oldHead, newHead, fork)
                && (forall n: nat | n <= top :: n in canonical && canonical[n] == Of(Ancestor(newHead, n)))
                && (old(lookup) == IndexOf(oldHead) ==>
                      lookup == IndexOf(Ancestor(newHead, top)) - Twice(oldHead, Ancestor(newHead, top), fork))
                && (NothingAbove(old(canonical), oldHead) ==> forall n: nat | n > top ::
                      n in canonical <==> newHead.number < fork + 2 && n <= oldHead.number)
                && (forall m: nat | Filled(old(canonical), m) ::
                      Filled(canonical, if newHead.number < fork + 2 then oldHead.number else newHead.number - 1))
                && (forall n: nat | n > top && n in canonical ::
                      n in old(canonical) && canonical[n] == old(canonical)[n])
                && (top == fork ==> unchanged(`currentHeader, `currentFastBlock))
    {
      hide Linked, Ancestor, Segment, IndexOf, OnPath, Spliced, NoRepeats, Known, Descends, NothingAbove, Filled;
      var ob, nb, chain, txs := Some(oldHead), Some(newHead), [], [];
      StartWalk(oldHead, newHead);
      if oldHead.number > newHead.number {
        var unused;
        ob, unused, txs := WalkDown(oldHead, newHead.number);
        if ob == None {
          return false, 0;
        }
      } else {
        var unused;
        nb, chain, unused := WalkDown(newHead, oldHead.number);
        if nb == None {
          return false, 0;
        }
      }
      var newChain, deleted;
      ok, newChain, deleted, fork := Meet(oldHead, newHead, ob.value, nb.value, chain, txs);
      if !ok {
        return;
      }
      var added, top := Reinsert(newChain, oldHead, newHead, fork);
      // transactions that left the chain and did not come back on the part written so far
      var gone := set t | t in deleted && t !in added;
      Purged(oldHead, newHead, fork, top, deleted, added, gone);
      lookup := lookup - gone;
      ghost var spliced := canonical;
      var stale, hole := RunAbove(currentBlock.number + 1);
      canonical := canonical - stale;
      Trimmed(old(canonical), spliced, oldHead, newHead, fork, top, stale, hole);
      forall m: nat | Filled(old(canonical), m)
        ensures Filled(canonical, if newHead.number < fork + 2 then oldHead.number else newHead.number - 1)
      {
        FilledTrim(old(canonical), spliced, oldHead, newHead, fork, top, stale, hole, m);
      }
      SplicedAbove(old(canonical), spliced, newHead, top);
    }

    /** The number index follows the head up to its height. */
    ghost predicate Indexed()
      reads this
    {
      Linked(currentBlock) && OnPath(canonical, currentBlock)
    }

    ghost predicate Valid()
      reads this
    {
      Indexed() && Weighed(blocks, tds) && Of(currentBlock) in blocks
    }

    /** The lookup holds exactly the transactions of the head's path. */
    ghost predicate LookupExact()
      reads this
    {
      Linked(currentBlock) && lookup == IndexOf(currentBlock)
    }

    ghost predicate HeadIsHeaviest()
      reads this
    {
      && Linked(currentBlock)
      && forall h | h in blocks :: h.Of? && Linked(h.block) && PathTd(h.block) <= PathTd(currentBlock)
    }

    /** No stored block has the head's total difficulty at a lower number. */
    ghost predicate HeadIsLowest()
      reads this
    {
      && Linked(currentBlock)
      && forall h | h in blocks && h.Of? && Linked(h.block) && PathTd(h.block) == PathTd(currentBlock) ::
           currentBlock.number <= h.block.number
    }

    /** Block, header and fast-sync head are the same, and the index names stored blocks only. */
    ghost predicate MarkersAgree()
      reads this
    {
      currentHeader == currentFastBlock == currentBlock && NamesStored(canonical, blocks)
    }

    constructor (genesis: Block)
      requires genesis.number == 0 && genesis.parent == Zero
      ensures Valid() && HeadIsHeaviest() && HeadIsLowest() && Tree(blocks, genesis)
      ensures NothingAbove(canonical, currentBlock) && LookupExact() && MarkersAgree()
      ensures this.genesis == genesis && currentBlock == genesis && blocks == map[Of(genesis) := genesis]
    {
      this.genesis := genesis;
      blocks, tds := map[Of(genesis) := genesis], map[Of(genesis) := genesis.difficulty];
      canonical, lookup := map[0 := Of(genesis)], TxMap(genesis);
      currentBlock, currentHeader, currentFastBlock := genesis, genesis, genesis;
    }

    /** Makes `block` the head, reorganising first when it does not sit on the current head. */
    method MoveHead(block: Block) returns (ok: bool)
      requires Indexed() && Linked(block)
      modifies this`canonical, this`lookup, this`currentBlock, this`currentHeader, this`currentFastBlock
      ensures !ok ==> canonical == old(canonical) && lookup == old(lookup) && currentBlock == old(currentBlock)
      ensures !ok ==>
                !Known(old(currentBlock), blocks) || !Known(block, blocks) ||
                Ancestor(old(currentBlock), 0) != Ancestor(block, 0)
      ensures ok ==> currentBlock == block && OnPath(canonical, block)
      ensures ok && old(LookupExact()) ==> (lookup == IndexOf(block) <==> NothingLost(old(currentBlock), block))
      ensures ok && NothingAbove(old(canonical), old(currentBlock)) ==>
                (NothingAbove(canonical, block) <==> !Overhang(old(currentBlock), block))
      ensures ok ==> forall m: nat | Filled(old(canonical), m) :: Filled(canonical, NewTop(m, old(currentBlock), block))
      ensures ok ==> forall n: nat | n > block.number && n in canonical ::
                n in old(canonical) && canonical[n] == old(canonical)[n]
      ensures ok && old(ReadCanonicalHash(block.number)) != Of(block) ==> currentHeader == currentFastBlock == block
      ensures ok && block == old(currentBlock) ==> unchanged(`currentHeader, `currentFastBlock)
      ensures ok && old(MarkersAgree()) && Tree(blocks, genesis) && Of(block) in blocks ==>
                old(ReadCanonicalHash(block.number)) != Of(block) || block == old(currentBlock) ==> MarkersAgree()
    {
      hide Linked, Ancestor, IndexOf, OnPath, Known, NothingAbove, NothingLost, Twice, ForkPoint, Filled, NewTop,
        Tree, NamesStored;
      ghost var was := currentBlock;
      if block.parent != Of(currentBlock) {
        ghost var fork;
        ok, fork := Reorg(currentBlock, block);
        if !ok {
          return;
        }
        ForkIsCommon(was, block, fork);
        HeadOnBranch(old(canonical), canonical, was, block, fork);
        BranchTop(old(canonical), canonical, was, block, fork);
        HeadLookup(was, block, fork);
        EntryAtHead(old(canonical), was, block, fork);
      } else {
        HeadOnTop(canonical, was, block);
        GrownTop(canonical, was, block);
      }
      WriteHeadBlock(block);
      ok := true;
      if old(MarkersAgree()) && Tree(blocks, genesis) && Of(block) in blocks {
        StillStored(old(canonical), canonical, blocks, genesis, block);
      }
    }

    /** The difficulties in memory are found by hash alone, those on disk by hash and number. */
    function GetTd(h: Hash, number: int, cached: set<Hash>): Option<int>
      reads this
    {
      if h.Of? && h in tds && (h in cached || h.block.number == number) then Some(tds[h]) else None
    }

    /** The fork choice between a block and the head. */
    method Prefer(block: Block, externTd: int, localTd: int, keepCurrent: bool, keepBlock: bool, coin: bool)
      returns (reorg: bool)
      requires Linked(block) && Linked(currentBlock)
      requires externTd == PathTd(block) && localTd == PathTd(currentBlock)
      ensures reorg == Better(block, currentBlock, keepCurrent, keepBlock, coin)
    {
      hide Linked, PathTd;
      reorg := externTd > localTd;
      if !reorg && externTd == localTd {
        if block.number < currentBlock.number {
          reorg := true;
        } else if block.number == currentBlock.number {
          reorg := !keepCurrent && (keepBlock || coin);
        }
      }
    }

    /** Stores a block and, by total difficulty and tie-break, makes it the head. */
    method WriteBlockWithState(block: Block, keepCurrent: bool, keepBlock: bool, coin: bool, cached: set<Hash>)
      returns (status: WriteStatus)
      requires Valid() && (block.parent in blocks && block.parent in cached ==> Follows(block))
      modifies this
      ensures Valid()
      ensures status == NonStat <==> !(block.parent in old(blocks) && Follows(block))
      ensures status == NonStat ==> blocks == old(blocks)
      ensures status != NonStat ==> Linked(block) && blocks == old(blocks)[Of(block) := block]
      ensures status != CanonStat ==>
                canonical == old(canonical) && lookup == old(lookup) && currentBlock == old(currentBlock)
      ensures status == CanonStat ==>
                currentBlock == block && Better(block, old(currentBlock), keepCurrent, keepBlock, coin)
      ensures status == SideStat ==> !Better(block, currentBlock, keepCurrent, keepBlock, coin)
      ensures status == CanonStat && NothingAbove(old(canonical), old(currentBlock)) ==>
                (NothingAbove(canonical, block) <==> !Overhang(old(currentBlock), block))
      ensures status == CanonStat ==>
                && (forall m: nat | Filled(old(canonical), m) :: Filled(canonical, NewTop(m, old(currentBlock), block)))
                && (forall n: nat | n > block.number && n in canonical ::
                      n in old(canonical) && canonical[n] == old(canonical)[n])
      ensures status == CanonStat && old(LookupExact()) ==> (LookupExact() <==> NothingLost(old(currentBlock), block))
      ensures old(Tree(blocks, genesis)) ==> Tree(blocks, genesis) && status != InvalidChain
      ensures old(Tree(blocks, genesis)) && old(HeadIsHeaviest()) ==>
                HeadIsHeaviest() && (old(HeadIsLowest()) ==> HeadIsLowest())
      ensures old(Tree(blocks, genesis)) && old(HeadIsHeaviest()) && old(HeadIsLowest()) && old(MarkersAgree()) ==>
                MarkersAgree()
    {
      hide Linked, Ancestor, IndexOf, OnPath, Known, NothingAbove, NothingLost, Tree, PathTd, Overhang, Filled,
        NewTop, NamesStored;
      var ptd := GetTd(block.parent, block.number - 1, cached);
      if ptd == None {
        return NonStat;
      }
      StoreStep(blocks, tds, genesis, block);
      var localTd := tds[Of(currentBlock)];
      var externTd := block.difficulty + ptd.value;
      MoreStored(canonical, blocks, block);
      tds, blocks := tds[Of(block) := externTd], blocks[Of(block) := block];
      var reorg := Prefer(block, externTd, localTd, keepCurrent, keepBlock, coin);
      if !reorg {
        return SideStat;
      }
      BothKnown(blocks, genesis, currentBlock, block);
      if old(Tree(blocks, genesis)) && old(HeadIsHeaviest()) && old(HeadIsLowest()) && old(MarkersAgree()) {
        NotIndexed(old(blocks), genesis, canonical, currentBlock, block);
      }
      var ok := MoveHead(block);
      status := if ok then CanonStat else InvalidChain;
    }

    /**
     Inserts a block: the consensus engine looks for the parent under the number before, except that of
     a block numbered zero; then the block is written.
     */
    method InsertBlock(w: Write, cached: set<Hash>) returns (status: WriteStatus)
      requires Valid() && Tree(blocks, genesis) && HeadIsHeaviest() && (w.block.number == 0 ==> w.block.parent == Zero)
      modifies this
      ensures Valid() && Tree(blocks, genesis) && HeadIsHeaviest() && old(blocks).Keys <= blocks.Keys
      ensures old(HeadIsLowest()) ==> HeadIsLowest() && (old(MarkersAgree()) ==> MarkersAgree())
      ensures status == NonStat <==> !(w.block.parent in old(blocks) && Follows(w.block))
      ensures status == NonStat ==> blocks == old(blocks)
      ensures status != NonStat ==> Linked(w.block) && blocks == old(blocks)[Of(w.block) := w.block]
      ensures status != NonStat ==>
                status == if Better(w.block, old(currentBlock), w.keepCurrent, w.keepBlock, w.coin) then CanonStat
                          else SideStat
      ensures status != NonStat && PathTd(w.block) == PathTd(old(currentBlock)) &&
              w.block.number == old(currentBlock).number ==>
                && (w.keepCurrent ==> status == SideStat)
                && (!w.keepCurrent && w.keepBlock ==> status == CanonStat)
                && (!w.keepCurrent && !w.keepBlock ==> (status == CanonStat <==> w.coin))
      ensures status != CanonStat ==>
                canonical == old(canonical) && lookup == old(lookup) && currentBlock == old(currentBlock)
      ensures status == CanonStat ==> currentBlock == w.block
      ensures status == CanonStat ==>
                && (forall m: nat | Filled(old(canonical), m) ::
                    Filled(canonical, NewTop(m, old(currentBlock), w.block)))
                && (forall n: nat | n > w.block.number && n in canonical ::
                      n in old(canonical) && canonical[n] == old(canonical)[n])
      ensures status == CanonStat && old(LookupExact()) ==> (LookupExact() <==> NothingLost(old(currentBlock), w.block))
    {
      hide Linked, Ancestor, IndexOf, OnPath, NothingAbove, NothingLost, PathTd, Overhang, Better, Filled, NewTop;
      var block := w.block;
      if block.number > 0 {
        var parent := if block.parent in blocks then Some(blocks[block.parent]) else None;
        if parent == None || parent.value.number != block.number - 1 {
          return NonStat;
        }
      }
      ghost var was := currentBlock;
      status := WriteBlockWithState(block, w.keepCurrent, w.keepBlock, w.coin, cached);
      if status != NonStat {
        FullTie(block, was, w.keepCurrent, w.keepBlock, w.coin);
      }
    }

    /**
     Any sequence of insertions on a chain grown from genesis, with the heads it passed through: exactly the
     blocks that were not refused are stored, the head stays the heaviest of all and the lowest of those, the
     index below it is its path, and above it there are exactly the entries that the moves left behind, each
     on the path of the last head that reached its height. Nothing is above the head if no move was an overhang.
     The lookup is exact as long as no move loses a transaction.
     */
    method Run(writes: seq<Write>, cached: set<Hash>) returns (statuses: seq<WriteStatus>, heads: seq<Block>)
      requires Valid() && Tree(blocks, genesis) && HeadIsHeaviest() && NothingAbove(canonical, currentBlock)
      requires forall w | w in writes && w.block.number == 0 :: w.block.parent == Zero
      modifies this
      ensures Valid() && Tree(blocks, genesis) && HeadIsHeaviest()
      ensures old(HeadIsLowest()) ==> HeadIsLowest() && (old(MarkersAgree()) ==> MarkersAgree())
      ensures |statuses| == |writes| && Stores(writes, statuses, heads, old(blocks), blocks)
      ensures Moves(heads, old(currentBlock), currentBlock) && IndexOfRun(heads, canonical)
      ensures NothingAbove(canonical, currentBlock) <==> Height(heads) == currentBlock.number
      ensures NoOverhang(heads) ==> NothingAbove(canonical, currentBlock)
      ensures old(LookupExact()) && NoLoss(heads) ==> LookupExact()
    {
      hide Linked, Ancestor, IndexOf, OnPath, NothingAbove, NothingLost, Tree, PathTd, Overhang, Better, Filled,
        NewTop, IndexOfRun, Height, Stores;
      statuses, heads := [], [currentBlock];
      RunBegins(canonical, currentBlock);
      NoneStored(writes, currentBlock, blocks);
      for i := 0 to |writes|
        invariant Valid() && Tree(blocks, genesis) && HeadIsHeaviest()
        invariant old(HeadIsLowest()) ==> HeadIsLowest() && (old(MarkersAgree()) ==> MarkersAgree())
        invariant |statuses| == i && Stores(writes, statuses, heads, old(blocks), blocks)
        invariant Moves(heads, old(currentBlock), currentBlock) && IndexOfRun(heads, canonical)
        invariant old(LookupExact()) && NoLoss(heads) ==> LookupExact()
      {
        assert writes[i] in writes;
        ghost var before, stored := canonical, blocks;
        RunFilled(heads, canonical);
        var status := InsertBlock(writes[i], cached);
        StoresStep(writes, statuses, heads, old(blocks), stored, status, blocks);
        statuses := statuses + [status];
        if status == CanonStat {
          MoveOn(heads, currentBlock);
          RunMoves(heads, currentBlock, before, canonical);
          heads := heads + [currentBlock];
        }
      }
      TopIsHead(heads, canonical, currentBlock);
      NoOverhangTop(heads);
    }
  }

  /** Nodes that store the same blocks have equally good heads, and the same one if no other ties with it. */
  lemma SameBlocksSameHead(c: BlockChain, d: BlockChain)
    requires c.Valid() && c.HeadIsHeaviest() && c.HeadIsLowest()
    requires d.Valid() && d.HeadIsHeaviest() && d.HeadIsLowest() && c.blocks == d.blocks
    ensures PathTd(c.currentBlock) == PathTd(d.currentBlock) && c.currentBlock.number == d.currentBlock.number
    ensures (forall h | h in c.blocks && PathTd(h.block) == PathTd(c.currentBlock) &&
                        h.block.number == c.currentBlock.number :: h.block == c.currentBlock) ==>
            c.currentBlock == d.currentBlock
  {
    assert Of(c.currentBlock) in c.blocks && Of(d.currentBlock) in c.blocks;
  }

  /** Stale entries do occur: a heavier one-block branch below a two-block chain. */
  method OverhangOccurs() returns (chain: BlockChain)
    ensures chain.Valid() && Tree(chain.blocks, chain.genesis) && chain.HeadIsHeaviest()
    ensures !NothingAbove(chain.canonical, chain.currentBlock)
  {
    var genesis := Block(Zero, 0, 1, [], 0);
    var low := Block(Of(genesis), 1, 1, [], 0);
    var high := Block(Of(low), 2, 1, [], 0);
    var heavy := Block(Of(genesis), 1, 9, [], 1);
    assert Linked(genesis) && Linked(low) && Linked(high) && Linked(heavy);
    assert PathTd(genesis) == 1 && PathTd(low) == 2 && PathTd(high) == 3 && PathTd(heavy) == 10;
    assert Better(low, genesis, false, false, false) && Better(high, low, false, false, false);
    assert Better(heavy, high, false, false, false);
    assert Ancestor(low, 0) == genesis && Ancestor(high, 0) == genesis;
    assert !Overhang(genesis, low) && !Overhang(low, high) && Overhang(high, heavy);
    hide *;
    chain := new BlockChain(genesis);
    var status := chain.WriteBlockWithState(low, false, false, false, {});
    status := chain.WriteBlockWithState(high, false, false, false, {});
    status := chain.WriteBlockWithState(heavy, false, false, false, {});
  }

  /** Transactions are lost from the lookup when a block repeats one of its own path and is then abandoned. */
  method LossOccurs() returns (chain: BlockChain)
    ensures chain.Valid() && Tree(chain.blocks, chain.genesis) && chain.HeadIsHeaviest()
    ensures !chain.LookupExact()
  {
    var genesis := Block(Zero, 0, 1, [], 0);
    var low := Block(Of(genesis), 1, 1, [7], 0);
    var repeat := Block(Of(low), 2, 1, [7], 0);
    var heavy := Block(Of(low), 2, 9, [], 1);
    assert Linked(genesis) && Linked(low) && Linked(repeat) && Linked(heavy);
    assert PathTd(genesis) == 1 && PathTd(low) == 2 && PathTd(repeat) == 3 && PathTd(heavy) == 11;
    assert Better(low, genesis, false, false, false) && Better(repeat, low, false, false, false);
    assert Better(heavy, repeat, false, false, false);
    LossAtFork(genesis, low, repeat, heavy);
    hide *;
    chain := new BlockChain(genesis);
    var status := chain.WriteBlockWithState(low, false, false, false, {});
    status := chain.WriteBlockWithState(repeat, false, false, false, {});
    status := chain.WriteBlockWithState(heavy, false, false, false, {});
  }
}
