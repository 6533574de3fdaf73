/** Blocks, their hashes and ancestor paths. A header commits to its transactions, so one value stands for both. */
module Chain {

  type TxId = nat

  /** A collision-free hash: the free constructor over the hashed block; `Zero` is the all-zero hash. */
  datatype Hash = Zero | Of(block: Block)

  datatype Block = Block(parent: Hash, number: nat, difficulty: nat, txs: seq<TxId>, extra: nat)

  /** Numbers count up by one from a parentless block. */
  ghost predicate Linked(b: Block) {
    if b.number == 0 then b.parent == Zero
    else b.parent.Of? && b.parent.block.number == b.number - 1 && Linked(b.parent.block)
  }

  /** The block at height `n` on the path of `b`. */
  ghost function Ancestor(b: Block, n: nat): (r: Block)
    requires Linked(b) && n <= b.number
    ensures Linked(r) && r.number == n
  {
    if n == b.number then b else Ancestor(b.parent.block, n)
  }

  lemma {:induction false} AncestorOfAncestor(b: Block, m: nat, n: nat)
    requires Linked(b) && m <= n <= b.number
    ensures Ancestor(Ancestor(b, n), m) == Ancestor(b, m)
    decreases b
  {
    if n < b.number {
      AncestorOfAncestor(b.parent.block, m, n);
    }
  }

  lemma AncestorStep(b: Block, n: nat)
    requires Linked(b) && n <= b.number
    ensures n == b.number ==> Ancestor(b, n) == b
    ensures n < b.number ==> b.parent.Of? && Linked(b.parent.block) && b.parent.block.number == b.number - 1 &&
                             Ancestor(b, n) == Ancestor(b.parent.block, n)
  {
  }

  /** Paths that meet at some height are the same from there down. */
  lemma MeetBelow(a: Block, b: Block, n: nat, m: nat)
    requires Linked(a) && Linked(b) && m <= n && n <= a.number && n <= b.number
    requires Ancestor(a, n) == Ancestor(b, n)
    ensures Ancestor(a, m) == Ancestor(b, m)
  {
    AncestorOfAncestor(a, m, n);
    AncestorOfAncestor(b, m, n);
  }

  /** The step from a path block to its parent. */
  lemma {:induction false} AncestorParent(b: Block, n: nat)
    requires Linked(b) && 0 < n <= b.number
    ensures Ancestor(b, n).parent == Of(Ancestor(b, n - 1))
    decreases b
  {
    if n < b.number {
      AncestorParent(b.parent.block, n);
    }
  }

  /** Total difficulty: the sum along the path. */
  ghost function PathTd(b: Block): nat
    requires Linked(b)
  {
    b.difficulty + if b.number == 0 then 0 else PathTd(b.parent.block)
  }

  ghost predicate CommonAt(a: Block, b: Block, n: nat)
    requires Linked(a) && Linked(b)
  {
    n <= a.number && n <= b.number && Ancestor(a, n) == Ancestor(b, n)
  }

  /** `c` is the height of the highest common ancestor. */
  ghost predicate ForkPoint(a: Block, b: Block, c: nat)
    requires Linked(a) && Linked(b)
  {
    CommonAt(a, b, c) && forall n: nat | CommonAt(a, b, n) :: n <= c
  }

  /** The index below `head` is exactly its ancestor path. */
  ghost predicate OnPath(canonical: map<nat, Hash>, head: Block)
    requires Linked(head)
  {
    forall n: nat | n <= head.number :: n in canonical && canonical[n] == Of(Ancestor(head, n))
  }

  ghost predicate NothingAbove(canonical: map<nat, Hash>, head: Block) {
    forall n | n in canonical :: n <= head.number
  }

  /** Stored blocks form a tree over one genesis block. */
  ghost predicate Tree(blocks: map<Hash, Block>, genesis: Block) {
    && Of(genesis) in blocks
    && forall h | h in blocks ::
         && h.Of? && blocks[h] == h.block && Linked(h.block)
         && (if h.block.number == 0 then h.block == genesis else h.block.parent in blocks)
  }

  ghost predicate Weighed(blocks: map<Hash, Block>, tds: map<Hash, int>) {
    tds.Keys == blocks.Keys && forall h | h in blocks :: h.Of? && Linked(h.block) && tds[h] == PathTd(h.block)
  }

  lemma {:induction false} AncestorStored(blocks: map<Hash, Block>, genesis: Block, b: Block, n: nat)
    requires Tree(blocks, genesis) && Of(b) in blocks && n <= b.number
    ensures Of(Ancestor(b, n)) in blocks
    ensures n == 0 ==> Ancestor(b, n) == genesis
    decreases b
  {
    if n < b.number {
      AncestorStored(blocks, genesis, b.parent.block, n);
    }
  }

  lemma TreeGrows(blocks: map<Hash, Block>, genesis: Block, b: Block)
    requires Tree(blocks, genesis) && b.parent in blocks && b.number == b.parent.block.number + 1
    ensures Linked(b) && PathTd(b) == b.difficulty + PathTd(b.parent.block)
    ensures Tree(blocks[Of(b) := b], genesis)
  {
    hide Linked, PathTd;
    OnTop(b);
  }

  lemma OnTop(b: Block)
    requires b.parent.Of? && Linked(b.parent.block) && b.number == b.parent.block.number + 1
    ensures Linked(b) && PathTd(b) == b.difficulty + PathTd(b.parent.block)
  {
  }
}
