/** The header chain (l2geth/core/headerchain.go) over a key-value database, modelled as maps. */
module HeaderChain {
  import opened Wrappers
  import opened Chain

  /** `Crashed` stands for the nil dereference of a header that is not found under the number asked for. */
  datatype WriteStatus = NonStat | CanonStat | SideStat | Crashed

  /** The hashes whose difficulty or header is in memory. */
  datatype Cache = Cache(tds: set<Hash>, headers: set<Hash>)

  /** A header is numbered one above the parent it names; importing headers checks this before they are written. */
  predicate Follows(header: Block) {
    header.parent.Of? ==> header.number == header.parent.block.number + 1
  }

  predicate Numbered(h: Hash, number: int) {
    h.Of? && h.block.number == number
  }

  lemma NotLinked(header: Block)
    requires header.parent.Of? && !Follows(header)
    ensures !Linked(header)
  {
  }

  lemma PathIsIndex(canonical: map<nat, Hash>, head: Block)
    requires Linked(head) && OnPath(canonical, head) && NothingAbove(canonical, head)
    ensures forall n :: n in canonical <==> 0 <= n <= head.number
    ensures forall n: nat | n <= head.number :: canonical[n] == Of(Ancestor(head, n))
  {
  }

  lemma WalkStart(headers: map<Hash, Block>, genesis: Block, b: Block)
    requires Tree(headers, genesis) && Of(b) in headers
    ensures Linked(b) && Ancestor(b, b.number) == b && headers[Of(b)] == b
  {
  }

  /** A block the index does not name has a stored parent on the path, since the index names the genesis block. */
  lemma WalkStep(headers: map<Hash, Block>, genesis: Block, canonical: map<nat, Hash>, current: Block, b: Block,
                 head: Block)
    requires Tree(headers, genesis) && Of(b) in headers && Of(current) in headers && Of(head) in headers
    requires OnPath(canonical, current) && head.number <= b.number && head == Ancestor(b, head.number)
    requires head.number !in canonical || canonical[head.number] != Of(head)
    ensures head.number > 0 && head.parent in headers && head.parent == Of(headers[head.parent])
    ensures headers[head.parent].number == head.number - 1 && headers[head.parent] == Ancestor(b, head.number - 1)
  {
    AncestorStored(headers, genesis, current, 0);
    assert head.number > 0;
    AncestorParent(b, head.number);
  }

  lemma WalkEnd(canonical: map<nat, Hash>, current: Block, b: Block, head: Block)
    requires Linked(b) && Linked(current) && OnPath(canonical, current) && NothingAbove(canonical, current)
    requires head.number <= b.number && head == Ancestor(b, head.number)
    requires head.number in canonical && canonical[head.number] == Of(head)
    ensures CommonAt(b, current, head.number)
  {
  }

  /** Dropping what is above and overwriting down to the meeting point makes the index the new path. */
  lemma Rerouted(canonical: map<nat, Hash>, current: Block, parent: Block, header: Block,
                 stale: set<nat>, writes: map<nat, Hash>, meet: nat)
    requires Linked(current) && OnPath(canonical, current) && NothingAbove(canonical, current)
    requires Linked(header) && Linked(parent) && header.number == parent.number + 1 && header.parent == Of(parent)
    requires CommonAt(parent, current, meet)
    requires forall n :: n in stale <==> n in canonical && n > header.number
    requires forall n :: n in writes <==> meet < n <= parent.number
    requires forall n | n in writes :: writes[n] == Of(Ancestor(parent, n))
    ensures var after := (canonical - stale) + writes[header.number := Of(header)];
            OnPath(after, header) && NothingAbove(after, header)
  {
    hide Linked, Ancestor;
    var after := (canonical - stale) + writes[header.number := Of(header)];
    forall n: nat | n <= header.number
      ensures n in after && after[n] == Of(Ancestor(header, n))
    {
      AncestorStep(header, n);
      if n <= meet {
        MeetBelow(parent, current, meet, n);
      }
    }
  }

  lemma TreeParent(tree: map<Hash, Block>, genesis: Block, h: Hash)
    requires Tree(tree, genesis) && h in tree
    ensures h.Of? && tree[h] == h.block && Linked(h.block)
  {
  }

  lemma ParentStored(tree: map<Hash, Block>, genesis: Block, b: Block)
    requires Tree(tree, genesis) && Of(b) in tree && b.number > 0
    ensures b.parent in tree && b.parent.Of? && Linked(b.parent.block) && b.parent.block.number == b.number - 1
  {
  }

  lemma StillTree(tree: map<Hash, Block>, headers: map<Hash, Block>, genesis: Block, header: Block)
    requires Tree(tree, genesis) && headers == tree[Of(header) := header]
    ensures forall h | h in tree :: h in headers && headers[h] == tree[h]
  {
  }

  /** The path of a block is that of its parent with the block on top. */
  lemma OneLower(b: Block, current: Block, meet: nat)
    requires Linked(b) && Linked(current) && b.number > 0 && b.parent.Of? && Linked(b.parent.block)
    requires CommonAt(b.parent.block, current, meet)
    ensures CommonAt(b, current, meet) && Ancestor(b, b.number) == b
    ensures forall n: nat | n < b.number :: Ancestor(b, n) == Ancestor(b.parent.block, n)
  {
    forall n: nat | n < b.number
      ensures Ancestor(b, n) == Ancestor(b.parent.block, n)
    {
      AncestorStep(b, n);
    }
  }

  /** The overwrites of a path that disagree with the index reach down to where the paths fork. */
  lemma WalkFork(canonical: map<nat, Hash>, current: Block, b: Block, meet: nat, writes: map<nat, Hash>)
    requires Linked(b) && Linked(current) && OnPath(canonical, current) && CommonAt(b, current, meet)
    requires forall n :: n in writes <==> meet < n <= b.number
    requires forall n | n in writes ::
               writes[n] == Of(Ancestor(b, n)) && (n !in canonical || canonical[n] != writes[n])
    ensures ForkPoint(b, current, meet)
  {
    hide Linked, Ancestor;
    forall n: nat | CommonAt(b, current, n)
      ensures n <= meet
    {
      assert canonical[n] == Of(Ancestor(current, n));
    }
  }

  lemma ForkCommon(a: Block, b: Block, c: nat)
    requires Linked(a) && Linked(b) && ForkPoint(a, b, c)
    ensures CommonAt(a, b, c)
  {
  }

  /**
   What is entered below a misnumbered header: its parent under the number before, unless that number
   lies on the stretch of the parent's path that is not on the index, which is entered where it belongs.
   */
  ghost predicate Misrouted(header: Block, current: Block, meet: nat, writes: map<nat, Hash>)
    requires header.parent.Of? && Linked(header.parent.block) && Linked(current)
  {
    var parent := header.parent.block;
    && (parent.number > 0 ==> ForkPoint(parent.parent.block, current, meet))
    && (forall n: nat :: n in writes <==> n + 1 == header.number || (meet < n < parent.number))
    && (forall n | n in writes ::
          writes[n] == if meet < n < parent.number then Of(Ancestor(parent, n)) else header.parent)
  }

  lemma MisroutedBy(header: Block, current: Block, meet: nat, first: map<nat, Hash>, rest: map<nat, Hash>)
    requires header.parent.Of? && Linked(header.parent.block) && Linked(current) && header.parent.block.number > 0
    requires var parent := header.parent.block;
             && parent.parent.Of? && Linked(parent.parent.block) && parent.parent.block.number == parent.number - 1
             && ForkPoint(parent.parent.block, current, meet)
             && (forall n: nat | n < parent.number :: Ancestor(parent, n) == Ancestor(parent.parent.block, n))
             && (forall n :: n in rest <==> meet < n <= parent.parent.block.number)
             && (forall n | n in rest :: rest[n] == Of(Ancestor(parent.parent.block, n)))
    requires forall n: nat :: n in first <==> n + 1 == header.number
    requires forall n | n in first :: first[n] == header.parent
    ensures Misrouted(header, current, meet, first + rest)
  {
    hide Linked, Ancestor, ForkPoint;
  }

  /** The index with everything above a header dropped, the given entries made, and the header on top. */
  function Entered(canonical: map<nat, Hash>, header: Block, writes: map<nat, Hash>): map<nat, Hash> {
    (canonical - (set n | n in canonical && n > header.number)) + writes[header.number := Of(header)]
  }

  lemma EnteredIs(canonical: map<nat, Hash>, header: Block, stale: set<nat>, writes: map<nat, Hash>)
    requires forall n :: n in stale <==> n in canonical && n > header.number
    ensures Entered(canonical, header, writes) == (canonical - stale) + writes[header.number := Of(header)]
  {
    assert stale == set n | n in canonical && n > header.number;
  }

  // ---------- batches of headers ----------

  /** A batch to import, with the coins of the fork choice and the engine's own checks of each header. */
  datatype Batch = Batch(chain: seq<Block>, coins: seq<bool>, verified: seq<bool>)

  /** The engine does not look for the parent of a header numbered zero, so it should be a genesis header. */
  predicate OneGenesis(chain: seq<Block>) {
    chain != [] && chain[0].number == 0 ==> chain[0].parent == Zero
  }

  /** What a batch has to be to get in: linked, counting up by one, on a stored parent or from genesis, and verified. */
  predicate Passes(batch: Batch, headers: map<Hash, Block>)
    requires |batch.verified| == |batch.chain|
  {
    var chain := batch.chain;
    && (forall i :: 0 <= i < |chain| ==> batch.verified[i])
    && (forall i :: 0 < i < |chain| ==> chain[i].parent == Of(chain[i - 1]) && Follows(chain[i]))
    && (chain != [] ==> if chain[0].number > 0 then chain[0].parent in headers && Follows(chain[0])
        else Of(chain[0]) in headers)
  }

  lemma PassesLater(batch: Batch, headers: map<Hash, Block>, headers': map<Hash, Block>)
    requires |batch.verified| == |batch.chain| && Passes(batch, headers) && headers.Keys <= headers'.Keys
    ensures Passes(batch, headers')
  {
  }

  lemma OnlyGenesis(headers: map<Hash, Block>, genesis: Block, b: Block)
    requires Tree(headers, genesis) && Of(b) in headers && b.number == 0
    ensures b == genesis
  {
  }

  lemma GenesisStored(headers: map<Hash, Block>, genesis: Block)
    requires Tree(headers, genesis)
    ensures Of(genesis) in headers
  {
  }

  /** A header of a batch that was accepted. */
  ghost predicate Imported(batches: seq<Batch>, results: seq<Option<nat>>, h: Hash) {
    exists i :: 0 <= i < |results| <= |batches| && results[i] == None && h.Of? && h.block in batches[i].chain
  }

  lemma ImportedLater(batches: seq<Batch>, results: seq<Option<nat>>, failed: Option<nat>)
    requires |results| < |batches|
    ensures forall h :: Imported(batches, results, h) ==> Imported(batches, results + [failed], h)
    ensures forall h: Hash | h.Of? && failed == None && h.block in batches[|results|].chain ::
              Imported(batches, results + [failed], h)
  {
    var results' := results + [failed];
    forall h | Imported(batches, results, h)
      ensures Imported(batches, results', h)
    {
      var i :| 0 <= i < |results| <= |batches| && results[i] == None && h.Of? && h.block in batches[i].chain;
      assert results'[i] == None;
    }
    assert results'[|results|] == failed;
  }

  /**
   What a run of imports has stored, and which batches it accepted: those that pass on what was stored at
   the start for certain, and no others than those that pass on what is stored now.
   */
  ghost predicate Accepts(batches: seq<Batch>, results: seq<Option<nat>>, before: map<Hash, Block>,
                          headers: map<Hash, Block>)
    requires forall b | b in batches :: |b.verified| == |b.chain|
  {
    && |results| <= |batches| && before.Keys <= headers.Keys
    && (forall i :: 0 <= i < |results| && Passes(batches[i], before) ==> results[i] == None)
    && (forall i :: 0 <= i < |results| && results[i] == None ==>
          Passes(batches[i], headers) && forall b | b in batches[i].chain :: Of(b) in headers)
    && (forall h | h in headers :: h in before || Imported(batches, results, h))
  }

  lemma NoneAccepted(batches: seq<Batch>, headers: map<Hash, Block>)
    requires forall b | b in batches :: |b.verified| == |b.chain|
    ensures Accepts(batches, [], headers, headers)
  {
  }

  lemma AcceptsStep(batches: seq<Batch>, results: seq<Option<nat>>, before: map<Hash, Block>,
                    headers: map<Hash, Block>, failed: Option<nat>, headers': map<Hash, Block>)
    requires forall b | b in batches :: |b.verified| == |b.chain|
    requires Accepts(batches, results, before, headers) && |results| < |batches| && headers.Keys <= headers'.Keys
    requires failed == None <==> Passes(batches[|results|], headers)
    requires failed == None ==> forall b | b in batches[|results|].chain :: Of(b) in headers'
    requires forall h | h in headers' ::
               h in headers || (failed == None && h.Of? && h.block in batches[|results|].chain)
    ensures Accepts(batches, results + [failed], before, headers')
  {
    hide Passes, Imported;
    ImportedLater(batches, results, failed);
    var last := batches[|results|];
    assert last in batches;
    if Passes(last, before) {
      PassesLater(last, before, headers);
    }
    forall i | 0 <= i < |results + [failed]| && (results + [failed])[i] == None
      ensures Passes(batches[i], headers') && forall b | b in batches[i].chain :: Of(b) in headers'
    {
      assert batches[i] in batches;
      PassesLater(batches[i], headers, headers');
    }
  }

  /** In a linked batch only the first parent can be missing. */
  lemma FailsAtStart(chain: seq<Block>, headers: map<Hash, Block>, k: nat)
    requires forall i :: 0 < i < |chain| ==> chain[i].parent == Of(chain[i - 1])
    requires k < |chain| && forall b | b in chain[..k] :: Of(b) in headers
    ensures k > 0 ==> chain[k].parent in headers
  {
    if k > 0 {
      assert chain[..k][k - 1] == chain[k - 1];
    }
  }

  function Min(a: nat, b: nat): nat {
    if a < b then a else b
  }

  /** How many parent steps lead from a block down to the canonical chain. */
  ghost function Detour(canonical: map<nat, Hash>, b: Block): nat {
    if (b.number in canonical && canonical[b.number] == Of(b)) || !b.parent.Of? then 0
    else 1 + Detour(canonical, b.parent.block)
  }

  /** Where so many steps from parent to parent lead, through headers that are in memory. */
  function WalkBack(headers: map<Hash, Block>, cached: set<Hash>, h: Hash, steps: nat): Option<Hash>
    decreases steps
  {
    if steps == 0 then Some(h)
    else if h in headers && h in cached then WalkBack(headers, cached, headers[h].parent, steps - 1)
    else None
  }

  /** The walk runs out of blocks after `k` steps, at a number above the head, where the index has no entry either. */
  ghost predicate RunsOut(headers: map<Hash, Block>, cached: set<Hash>, h: Hash, number: nat, ancestor: nat, top: nat,
                          k: nat) {
    k < ancestor <= number && number - k > top && WalkBack(headers, cached, h, k) == Some(Zero)
  }

  lemma {:induction false} WalkSplit(headers: map<Hash, Block>, cached: set<Hash>, h: Hash, i: nat, j: nat)
    ensures WalkBack(headers, cached, h, i + j) ==
            match WalkBack(headers, cached, h, i) case None => None case Some(m) => WalkBack(headers, cached, m, j)
    decreases i
  {
    if i > 0 && h in headers && h in cached {
      WalkSplit(headers, cached, headers[h].parent, i - 1, j);
    }
  }

  lemma WalkFirst(headers: map<Hash, Block>, cached: set<Hash>, h: Hash, j: nat)
    requires j > 0
    ensures h in headers && h in cached ==> WalkBack(headers, cached, h, 1) == Some(headers[h].parent)
    ensures !(h in headers && h in cached) ==> WalkBack(headers, cached, h, j) == None
  {
  }

  lemma NoZero(headers: map<Hash, Block>, genesis: Block)
    requires Tree(headers, genesis)
    ensures Zero !in headers
  {
  }

  /** A walk that finds no header at `h` after `i` steps ends there. */
  lemma WalkStuck(headers: map<Hash, Block>, cached: set<Hash>, hash: Hash, h: Hash, i: nat, k: nat)
    requires WalkBack(headers, cached, hash, i) == Some(h) && !(h in headers && h in cached) && k > i
    ensures WalkBack(headers, cached, hash, k) == None
  {
    hide WalkBack;
    WalkSplit(headers, cached, hash, i, k - i);
    WalkFirst(headers, cached, h, k - i);
  }

  /** How a walk that got to `h` after `i` steps goes on, and when it has run out. */
  lemma WalkOn(headers: map<Hash, Block>, genesis: Block, cached: set<Hash>, hash: Hash, number: nat, ancestor: nat,
               top: nat, h: Hash, i: nat)
    requires Tree(headers, genesis) && WalkBack(headers, cached, hash, i) == Some(h) && i < ancestor <= number
    ensures h in headers && h in cached ==> WalkBack(headers, cached, hash, i + 1) == Some(headers[h].parent)
    ensures !(h in headers && h in cached) ==>
              && WalkBack(headers, cached, hash, ancestor) == None
              && forall k: nat | k > i :: !RunsOut(headers, cached, hash, number, ancestor, top, k)
    ensures RunsOut(headers, cached, hash, number, ancestor, top, i) <==> h == Zero && number - i > top
    ensures h == Zero ==> h !in headers
  {
    hide WalkBack, Tree;
    NoZero(headers, genesis);
    if h in headers && h in cached {
      WalkSplit(headers, cached, hash, i, 1);
      WalkFirst(headers, cached, h, 1);
    } else {
      forall k: nat | k > i
        ensures !RunsOut(headers, cached, hash, number, ancestor, top, k)
      {
        WalkStuck(headers, cached, hash, h, i, k);
      }
      WalkStuck(headers, cached, hash, h, i, ancestor);
    }
  }

  lemma DetourStep(headers: map<Hash, Block>, genesis: Block, canonical: map<nat, Hash>, current: Block, h: Hash)
    requires Tree(headers, genesis) && Of(current) in headers && OnPath(canonical, current) &&
             NothingAbove(canonical, current)
    requires h.Of?
    ensures h.block.number in canonical && canonical[h.block.number] == h ==>
              h in headers && Detour(canonical, h.block) == 0
    ensures h in headers && !(h.block.number in canonical && canonical[h.block.number] == h) ==>
              && h.block.number > 0 && h.block.parent in headers && h.block.parent.Of?
              && Detour(canonical, h.block) == 1 + Detour(canonical, h.block.parent.block)
  {
    if h.block.number in canonical && canonical[h.block.number] == h {
      AncestorStored(headers, genesis, current, h.block.number);
    } else if h in headers {
      WalkStart(headers, genesis, h.block);
      WalkStep(headers, genesis, canonical, current, h.block, h.block);
    }
  }

  /** A block asked for under another number than its own is never found on the index, nor are its ancestors. */
  lemma OffIndex(headers: map<Hash, Block>, genesis: Block, canonical: map<nat, Hash>, current: Block, h: Hash, n: nat)
    requires Tree(headers, genesis) && Of(current) in headers && OnPath(canonical, current) &&
             NothingAbove(canonical, current)
    requires !Numbered(h, n)
    ensures n <= current.number ==> n in canonical && canonical[n] != h
    ensures n > current.number ==> n !in canonical
    ensures h in headers && n > 0 ==> !Numbered(headers[h].parent, n - 1)
  {
  }

  /** From a block on the canonical chain, the index names its ancestors. */
  lemma Jump(headers: map<Hash, Block>, genesis: Block, canonical: map<nat, Hash>, current: Block, start: Hash,
             h: Hash, n: nat)
    requires Tree(headers, genesis) && Of(current) in headers && OnPath(canonical, current) &&
             NothingAbove(canonical, current)
    requires h.Of? && h.block.number in canonical && canonical[h.block.number] == h && n <= h.block.number
    requires start.Of? && start in headers && h.block.number <= start.block.number &&
             h.block == Ancestor(start.block, h.block.number)
    ensures n in canonical && canonical[n] == Of(Ancestor(start.block, n))
  {
    MeetBelow(start.block, current, h.block.number, n);
  }

  class HeaderChain {
    const genesis: Block
    var headers: map<Hash, Block>
    var tds: map<Hash, int>
    var canonical: map<nat, Hash>
    var headHeaderHash: Hash
    var current: Block

    /** The index is the path of the head and nothing else; no stored header is heavier than the head. */
    ghost predicate Valid()
      reads this
    {
      && Tree(headers, genesis) && Weighed(headers, tds)
      && Of(current) in headers && headHeaderHash == Of(current)
      && OnPath(canonical, current) && NothingAbove(canonical, current)
      && (forall h | h in headers :: PathTd(h.block) <= PathTd(current))
    }

    constructor (genesis: Block)
      requires genesis.number == 0 && genesis.parent == Zero
      ensures Valid() && current == genesis && this.genesis == genesis
      ensures headers == map[Of(genesis) := genesis]
    {
      this.genesis := genesis;
      headers := map[Of(genesis) := genesis];
      tds := map[Of(genesis) := genesis.difficulty];
      canonical := map[0 := Of(genesis)];
      headHeaderHash := Of(genesis);
      current := genesis;
    }

    function ReadCanonicalHash(n: int): Hash
      reads this
    {
      if n >= 0 && n in canonical then canonical[n] else Zero
    }

    /** The difficulties in memory are found by hash alone, those on disk by hash and number. */
    function GetTd(h: Hash, number: int, cache: Cache): Option<int>
      reads this
    {
      if h in tds && (h in cache.tds || (h.Of? && h.block.number == number)) then Some(tds[h]) else None
    }

    function GetHeader(h: Hash, number: int, cache: Cache): Option<Block>
      reads this
    {
      if h in headers && (h in cache.headers || (h.Of? && h.block.number == number)) then Some(headers[h]) else None
    }

    ghost predicate Indexed(head: Block)
      reads this
    {
      Linked(head) && OnPath(canonical, head)
    }

    /** The numbers above `number` that the index still assigns, found by scanning up to the first hole. */
    method StaleAbove(number: nat) returns (stale: set<nat>)
      requires Indexed(current) && NothingAbove(canonical, current)
      ensures forall n :: n in stale <==> n in canonical && n > number
    {
      stale := {};
      var i := number + 1;
      while ReadCanonicalHash(i) != Zero
        invariant i > number
        invariant forall n :: n in stale <==> number < n < i
        invariant forall n | number < n < i :: n in canonical
        decreases current.number + 1 - i
      {
        stale := stale + {i};
        i := i + 1;
      }
    }

    /**
     The overwrites needed so that the index follows `parent`: walks down until the stored
     index already agrees.
     */
    method Overwrites(parent: Block, ghost tree: map<Hash, Block>) returns (writes: map<nat, Hash>, ghost meet: nat)
      requires Tree(tree, genesis) && Of(parent) in tree && Of(current) in tree
      requires forall h | h in tree :: h in headers && headers[h] == tree[h]
      requires OnPath(canonical, current) && NothingAbove(canonical, current)
      ensures ForkPoint(parent, current, meet)
      ensures forall n :: n in writes <==> meet < n <= parent.number
      ensures forall n | n in writes :: writes[n] == Of(Ancestor(parent, n))
    {
      hide Linked, Ancestor, PathTd, OnPath, Tree, NothingAbove, CommonAt, ForkPoint;
      writes := map[];
      WalkStart(tree, genesis, parent);
      WalkStart(tree, genesis, current);
      var head := parent;
      while ReadCanonicalHash(head.number) != Of(head)
        invariant Linked(parent) && Of(head) in tree && head.number <= parent.number &&
                  head == Ancestor(parent, head.number)
        invariant forall n :: n in writes <==> head.number < n <= parent.number
        invariant forall n | n in writes :: writes[n] == Of(Ancestor(parent, n)) && ReadCanonicalHash(n) != writes[n]
        decreases head.number
      {
        writes := writes[head.number := Of(head)];
        WalkStep(tree, genesis, canonical, current, parent, head);
        head := headers[head.parent];
      }
      meet := head.number;
      WalkEnd(canonical, current, parent, head);
      WalkFork(canonical, current, parent, head.number, writes);
    }

    /**
     The overwrites below a new header, whose number tells where its parent is looked for. If that is
     not the parent's own number, the parent is entered there too, and a parent that is not in memory is
     not found.
     */
    method FollowDown(header: Block, cache: Cache, ghost tree: map<Hash, Block>)
      returns (ok: bool, writes: map<nat, Hash>, ghost meet: nat)
      requires Tree(tree, genesis) && header.parent in tree && Of(current) in tree
      requires forall h | h in tree :: h in headers && headers[h] == tree[h]
      requires OnPath(canonical, current) && NothingAbove(canonical, current)
      ensures Follows(header) ==>
                && ok && CommonAt(header.parent.block, current, meet)
                && (forall n :: n in writes <==> meet < n <= header.parent.block.number)
                && (forall n | n in writes :: writes[n] == Of(Ancestor(header.parent.block, n)))
      ensures !Follows(header) ==> (ok <==> header.parent in cache.headers)
      ensures !Follows(header) && ok ==> Misrouted(header, current, meet, writes)
    {
      hide Linked, Ancestor, PathTd, OnPath, Tree, NothingAbove, CommonAt, ForkPoint;
      TreeParent(tree, genesis, header.parent);
      var parent := header.parent.block;
      WalkStart(tree, genesis, parent);
      WalkStart(tree, genesis, current);
      writes, meet := map[], parent.number;
      if !Follows(header) && header.number > 0 {
        OffIndex(tree, genesis, canonical, current, header.parent, header.number - 1);
      }
      if ReadCanonicalHash(header.number - 1) == header.parent {
        if Follows(header) {
          WalkEnd(canonical, current, parent, parent);
        }
        return true, writes, meet;
      }
      var head := GetHeader(header.parent, header.number - 1, cache);
      if head == None {
        return false, writes, meet;
      }
      if Follows(header) {
        WalkStep(tree, genesis, canonical, current, parent, parent);
      }
      var first := if header.number > 0 then map[header.number - 1 := header.parent] else map[];
      if head.value.number > 0 {
        ParentStored(tree, genesis, parent);
        var rest;
        rest, meet := Overwrites(parent.parent.block, tree);
        ForkCommon(parent.parent.block, current, meet);
        writes := first + rest;
        OneLower(parent, current, meet);
        MisroutedBy(header, current, meet, first, rest);
      } else {
        writes := first;
      }
      return true, writes, meet;
    }

    /**
     Stores a header with its total difficulty. The number is not compared with the parent's when the
     parent's difficulty is cached, so the stored headers stay a tree exactly if the caller has checked it.
     */
    method StoreHeader(header: Block, cache: Cache) returns (td: Option<int>)
      requires Tree(headers, genesis) && Weighed(headers, tds)
      modifies this`headers, this`tds
      ensures td == None <==> !(header.parent in old(headers) && (header.parent in cache.tds || Follows(header)))
      ensures td == None ==> headers == old(headers) && tds == old(tds)
      ensures td.Some? ==> headers == old(headers)[Of(header) := header]
      ensures td.Some? ==> td.value == header.difficulty + old(tds)[header.parent]
      ensures td.Some? ==> (Tree(headers, genesis) <==> Follows(header))
      ensures td.Some? && Follows(header) ==> Weighed(headers, tds) && Linked(header) && td.value == PathTd(header)
    {
      hide PathTd, Linked;
      var ptd := GetTd(header.parent, header.number - 1, cache);
      if ptd == None {
        return None;
      }
      var externTd := header.difficulty + ptd.value;
      if Follows(header) {
        TreeGrows(headers, genesis, header);
      } else {
        NotLinked(header);
      }
      tds, headers := tds[Of(header) := externTd], headers[Of(header) := header];
      return Some(externTd);
    }

    /**
     Stores a header and, when it makes a heavier chain, re-routes the index to it. The chain stays
     valid unless a misnumbered header gets in because its parent's difficulty is in memory.
     */
    method WriteHeader(header: Block, coin: bool, cache: Cache) returns (status: WriteStatus)
      requires Valid()
      modifies this
      ensures status == NonStat <==> !(header.parent in old(headers) && (header.parent in cache.tds || Follows(header)))
      ensures status == NonStat ==> headers == old(headers) && canonical == old(canonical) && current == old(current)
      ensures status == NonStat || Follows(header) ==> Valid()
      ensures status != NonStat ==> headers == old(headers)[Of(header) := header]
      ensures status != NonStat ==> (Tree(headers, genesis) <==> Follows(header))
      ensures status != NonStat ==>
                var td, best := header.difficulty + old(tds)[header.parent], old(tds)[Of(old(current))];
                status == SideStat <==> td < best || (td == best && !coin)
      ensures status == CanonStat ==> current == header && ReadCanonicalHash(header.number) == Of(header)
      ensures status == SideStat || status == Crashed ==> current == old(current) && canonical == old(canonical)
      ensures status == Crashed ==> !Follows(header) && header.parent !in cache.headers
      ensures status == CanonStat && !Follows(header) ==>
                Linked(header.parent.block) && Linked(old(current)) &&
                exists meet: nat, writes :: Misrouted(header, old(current), meet, writes) &&
                  canonical == Entered(old(canonical), header, writes)
      ensures status != NonStat && Follows(header) ==>
                Linked(header) && PathTd(header) == header.difficulty + old(tds)[header.parent]
    {
      hide Linked, Ancestor, PathTd, OnPath, Tree;
      ghost var tree := headers;
      var localTd := tds[headHeaderHash];
      var td := StoreHeader(header, cache);
      if td == None {
        return NonStat;
      }
      var externTd := td.value;
      if externTd > localTd || (externTd == localTd && coin) {
        var stale := StaleAbove(header.number);
        StillTree(tree, headers, genesis, header);
        var ok, writes, meet := FollowDown(header, cache, tree);
        if !ok {
          return Crashed;
        }
        if Follows(header) {
          Rerouted(canonical, current, header.parent.block, header, stale, writes, meet);
        }
        EnteredIs(canonical, header, stale, writes);
        canonical := (canonical - stale) + writes[header.number := Of(header)];
        headHeaderHash, current := Of(header), header;
        status := CanonStat;
      } else {
        status := SideStat;
      }
    }

    /**
     Checks a batch before it is imported: it is linked and counts up by one, and its first header has
     its parent stored under the number before. `verified` are the other checks of the consensus engine.
     */
    method ValidateHeaderChain(chain: seq<Block>, verified: seq<bool>, cache: Cache) returns (failed: Option<nat>)
      requires Valid() && |verified| == |chain|
      ensures failed == None <==>
                && (forall i :: 0 <= i < |chain| ==> verified[i])
                && (forall i :: 0 < i < |chain| ==> chain[i].parent == Of(chain[i - 1]) && Follows(chain[i]))
                && (chain != [] && chain[0].number > 0 ==> chain[0].parent in headers && Follows(chain[0]))
    {
      hide Linked, Ancestor, PathTd, OnPath, Tree, NothingAbove;
      var i := 1;
      while i < |chain|
        invariant forall k :: 0 < k < i && k < |chain| ==> chain[k].parent == Of(chain[k - 1]) && Follows(chain[k])
      {
        if chain[i].number != chain[i - 1].number + 1 || chain[i].parent != Of(chain[i - 1]) {
          return Some(0);
        }
        i := i + 1;
      }
      for i := 0 to |chain|
        invariant forall k :: 0 <= k < i ==> verified[k]
        invariant i > 0 && chain[0].number > 0 ==> chain[0].parent in headers && Follows(chain[0])
      {
        if i == 0 && chain[0].number > 0 {
          var parent := GetHeader(chain[0].parent, chain[0].number - 1, cache);
          if parent == None || parent.value.number != chain[0].number - 1 {
            if chain[0].parent in headers {
              TreeParent(headers, genesis, chain[0].parent);
            }
            return Some(0);
          }
          TreeParent(headers, genesis, chain[0].parent);
        }
        if !verified[i] {
          return Some(i);
        }
      }
      return None;
    }

    /** Imports headers in order, skipping known ones that are no heavier than the head. */
    method InsertHeaderChain(chain: seq<Block>, coins: seq<bool>, cache: Cache) returns (failed: Option<nat>)
      requires Valid() && |coins| == |chain| && forall b | b in chain && b.parent in cache.tds :: Follows(b)
      modifies this
      ensures Valid()
      ensures failed == None ==> forall b | b in chain :: Of(b) in headers
      ensures failed.Some? ==>
                && failed.value < |chain| && Of(chain[failed.value]) !in old(headers)
                && !(chain[failed.value].parent in headers && Follows(chain[failed.value]))
                && forall b | b in chain[..failed.value] :: Of(b) in headers
      ensures forall h | h in headers :: h in old(headers) || (h.Of? && h.block in chain)
      ensures failed == Some(0) ==> headers == old(headers) && canonical == old(canonical) && current == old(current)
      ensures old(headers).Keys <= headers.Keys
    {
      hide Linked, Ancestor, PathTd, OnPath, Tree, NothingAbove;
      for i := 0 to |chain|
        invariant Valid() && old(headers).Keys <= headers.Keys
        invariant i == 0 ==> headers == old(headers) && canonical == old(canonical) && current == old(current)
        invariant forall h | h in headers :: h in old(headers) || (h.Of? && h.block in chain)
        invariant forall b | b in chain[..i] :: Of(b) in headers
      {
        var header := chain[i];
        assert chain[..i + 1] == chain[..i] + [header];
        if Of(header) in headers && tds[Of(header)] <= tds[headHeaderHash] {
          continue;
        }
        HeaviestKnown();
        assert header in chain;
        var status := WriteHeader(header, coins[i], cache);
        if status == NonStat {
          return Some(i);
        }
      }
      assert chain[..|chain|] == chain;
      return None;
    }

    /** Checks and imports a batch: it is stored as a whole exactly if it passes, and refused as a whole otherwise. */
    method ImportHeaders(batch: Batch, cache: Cache) returns (failed: Option<nat>)
      requires Valid() && |batch.coins| == |batch.verified| == |batch.chain| && OneGenesis(batch.chain)
      modifies this
      ensures Valid() && old(headers).Keys <= headers.Keys
      ensures failed == None <==> Passes(batch, old(headers))
      ensures failed == None ==> forall b | b in batch.chain :: Of(b) in headers
      ensures forall h | h in headers :: h in old(headers) || (failed == None && h.Of? && h.block in batch.chain)
      ensures failed.Some? ==> headers == old(headers) && canonical == old(canonical) && current == old(current)
    {
      hide Linked, Ancestor, PathTd, OnPath, Tree, NothingAbove;
      failed := ValidateHeaderChain(batch.chain, batch.verified, cache);
      if failed.Some? {
        return;
      }
      var chain := batch.chain;
      failed := InsertHeaderChain(chain, batch.coins, cache);
      if failed.Some? {
        FailsAtStart(chain, headers, failed.value);
      } else if chain != [] && chain[0].number == 0 {
        assert chain[0] in chain;
        OnlyGenesis(headers, genesis, chain[0]);
        GenesisStored(old(headers), genesis);
      }
    }

    /**
     Any sequence of imports: a batch that passes on what was stored at the start is accepted, every accepted
     batch passes and is stored, and nothing else is. The index is the path of the head and nothing more, the
     stored difficulties are path sums, and no stored header is heavier than the head.
     */
    method Run(batches: seq<Batch>, cache: Cache) returns (results: seq<Option<nat>>)
      requires Valid()
      requires forall b | b in batches :: |b.coins| == |b.verified| == |b.chain| && OneGenesis(b.chain)
      modifies this
      ensures Valid() && |results| == |batches|
      ensures Accepts(batches, results, old(headers), headers)
      ensures forall n :: n in canonical <==> 0 <= n <= current.number
      ensures forall n: nat | n <= current.number :: canonical[n] == Of(Ancestor(current, n))
      ensures forall h | h in headers :: tds[h] == PathTd(h.block) <= PathTd(current)
    {
      hide Linked, Ancestor, PathTd, Tree, OnPath, Passes, Accepts;
      results := [];
      NoneAccepted(batches, headers);
      for i := 0 to |batches|
        invariant Valid() && |results| == i && Accepts(batches, results, old(headers), headers)
      {
        assert batches[i] in batches;
        ghost var before := headers;
        var failed := ImportHeaders(batches[i], cache);
        AcceptsStep(batches, results, old(headers), before, failed, headers);
        results := results + [failed];
      }
      PathIsIndex(canonical, current);
    }

    lemma HeaviestKnown()
      requires Valid()
      ensures forall h | h in headers :: tds[h] <= tds[headHeaderHash]
    {
    }

    /**
     The hash and number `ancestor` blocks below the given block, or the zero hash. It jumps
     through the index as soon as it stands on the canonical chain and otherwise walks from parent
     to parent, at most `maxNonCanonical` steps; `left` is what remains of that allowance.
     */
    method GetAncestor(hash: Hash, number: nat, ancestor: nat, maxNonCanonical: nat, cache: Cache)
      returns (h: Hash, n: nat, left: nat)
      requires Valid()
      ensures left <= maxNonCanonical
      ensures ancestor == 0 ==> h == hash && n == number && left == maxNonCanonical
      ensures ancestor > number ==> h == Zero && n == 0
      ensures Numbered(hash, number) && hash !in headers && ancestor > 0 ==> h == Zero && n == 0
      ensures Numbered(hash, number) && hash in headers && 0 < ancestor <= number ==>
                var steps := if ancestor == 1 then 0 else Min(ancestor, Detour(canonical, hash.block));
                if steps <= maxNonCanonical
                then h == Of(Ancestor(hash.block, number - ancestor)) && n == number - ancestor &&
                     left == maxNonCanonical - steps
                else h == Zero && n == 0
      ensures !Numbered(hash, number) && 0 < ancestor <= number ==>
                var end := WalkBack(headers, cache.headers, hash, ancestor);
                if ancestor > 1 && exists k: nat ::
                  RunsOut(headers, cache.headers, hash, number, ancestor, current.number, k)
                then forall k: nat | RunsOut(headers, cache.headers, hash, number, ancestor, current.number, k) ::
                       if k <= maxNonCanonical
                       then h == ReadCanonicalHash(number - ancestor) && n == number - ancestor &&
                            left == maxNonCanonical - k
                       else h == Zero && n == 0
                else if end.Some? && (ancestor == 1 || ancestor <= maxNonCanonical)
                then h == end.value && n == number - ancestor &&
                     left == (if ancestor == 1 then maxNonCanonical else maxNonCanonical - ancestor)
                else h == Zero && n == 0
    {
      hide Linked, Ancestor, PathTd, OnPath, Tree, NothingAbove, Weighed, Detour;
      left := maxNonCanonical;
      if ancestor > number {
        return Zero, 0, left;
      }
      if ancestor == 1 {
        var header := GetHeader(hash, number, cache);
        if header.Some? {
          if Numbered(hash, number) {
            WalkStart(headers, genesis, hash.block);
            AncestorStep(hash.block, number);
            AncestorParent(hash.block, number);
          }
          return header.value.parent, number - 1, left;
        }
        return Zero, 0, left;
      }
      h, n := hash, number;
      var rest: nat := ancestor;
      ghost var own := Numbered(hash, number);
      ghost var known := own && hash in headers;
      if known {
        WalkStart(headers, genesis, hash.block);
        AncestorStep(hash.block, number);
      }
      while rest != 0
        invariant rest <= n && number - n == ancestor - rest == maxNonCanonical - left
        invariant own ==> Numbered(h, n)
        invariant rest == ancestor ==> h == hash
        invariant own && hash !in headers ==> rest == ancestor
        invariant known ==> h in headers && Linked(hash.block) && n <= number && h.block == Ancestor(hash.block, n)
        invariant !own ==> !Numbered(h, n) && WalkBack(headers, cache.headers, hash, number - n) == Some(h)
        invariant !own ==> forall k: nat | RunsOut(headers, cache.headers, hash, number, ancestor, current.number, k) ::
                    k >= number - n
        invariant known ==> number - n <= Detour(canonical, hash.block)
        invariant known ==> Detour(canonical, hash.block) == number - n + Detour(canonical, h.block)
        decreases rest
      {
        if own {
          DetourStep(headers, genesis, canonical, current, h);
        } else {
          OffIndex(headers, genesis, canonical, current, h, n);
          WalkOn(headers, genesis, cache.headers, hash, number, ancestor, current.number, h, number - n);
        }
        if ReadCanonicalHash(n) == h {
          if known {
            Jump(headers, genesis, canonical, current, hash, h, n - rest);
          }
          return ReadCanonicalHash(n - rest), n - rest, left;
        }
        if left == 0 {
          return Zero, 0, left;
        }
        left := left - 1;
        rest := rest - 1;
        var header := GetHeader(h, n, cache);
        if header == None {
          return Zero, 0, left;
        }
        if known {
          WalkStart(headers, genesis, h.block);
          AncestorParent(hash.block, n);
        }
        h := header.value.parent;
        n := n - 1;
      }
    }
  }

  /** A header with a wrong number is stored all the same when its parent's difficulty is cached. */
  method MisnumberedIsStored() returns (chain: HeaderChain)
    ensures !Tree(chain.headers, chain.genesis)
  {
    var genesis := Block(Zero, 0, 1, [], 0);
    chain := new HeaderChain(genesis);
    var td := chain.StoreHeader(Block(Of(genesis), 5, 1, [], 0), Cache({Of(genesis)}, {}));
  }
}
