/**
 The section indexer (l2geth/core/chain_indexer.go). Sections are processed without the lock, so
 head notifications and changes of the canonical chain interleave with processing; every step
 that the source makes under the lock, and every header it reads without it, is one method here.
 */
module ChainIndexer {
  import opened Wrappers
  import opened Chain

  /** `head` ends a run of `count` hash-linked blocks numbered from `first`, the first on top of `last`. */
  ghost predicate RunOf(last: Hash, head: Hash, first: nat, count: nat) {
    if count == 0 then head == last
    else head.Of? && head.block.number == first + count - 1 && RunOf(last, head.block.parent, first, count - 1)
  }

  /** The index names a hash-linked chain. */
  ghost predicate Consistent(canonical: map<nat, Hash>) {
    forall n | n in canonical ::
      && canonical[n].Of? && canonical[n].block.number == n
      && (n > 0 ==> n - 1 in canonical && canonical[n].block.parent == canonical[n - 1])
  }

  function HeadOf(heads: map<nat, Hash>, section: int): Hash {
    if section >= 0 && section in heads then heads[section] else Zero
  }

  /** The number of the last block of a section. */
  function EndOf(section: nat, size: nat): int {
    (section + 1) * size - 1
  }

  ghost predicate SectionLinked(heads: map<nat, Hash>, s: nat, size: nat) {
    s in heads && RunOf(HeadOf(heads, s - 1), heads[s], s * size, size)
  }

  /** Every stored section from `from` on is a linked run from the previous section head. */
  ghost predicate SectionsLinked(heads: map<nat, Hash>, from: nat, stored: nat, size: nat) {
    forall s: nat | from <= s < stored :: SectionLinked(heads, s, size)
  }

  lemma {:induction false} RunIsCanonical(canonical: map<nat, Hash>, last: Hash, head: Hash, first: nat, count: nat)
    requires Consistent(canonical) && RunOf(last, head, first, count) && 0 < count
    requires first + count - 1 in canonical && canonical[first + count - 1] == head
    ensures first > 0 ==> first - 1 in canonical && canonical[first - 1] == last
    decreases count
  {
    if count > 1 {
      RunIsCanonical(canonical, last, head.block.parent, first, count - 1);
    }
  }

  lemma Times(s: nat, size: nat)
    requires size > 0
    ensures (s + 1) * size == s * size + size
    ensures s > 0 ==> s * size == (s - 1) * size + size && s * size > 0
  {
    if s > 0 {
      assert s * size == (s - 1) * size + size;
      assert (s - 1) * size >= 0;
    }
  }

  /** If the last stored section ends on the canonical chain, so do all of them down to the checkpoint. */
  lemma {:induction false} LastHeadDecides(heads: map<nat, Hash>, canonical: map<nat, Hash>, checkpoint: nat,
                                           stored: nat, size: nat, s: nat)
    requires size > 0 && Consistent(canonical) && SectionsLinked(heads, checkpoint, stored, size)
    requires checkpoint <= s < stored
    requires HeadOf(heads, stored - 1) == HeadOf(canonical, EndOf(stored - 1, size))
    ensures HeadOf(heads, s) == HeadOf(canonical, EndOf(s, size))
    decreases stored - s
  {
    hide RunOf;
    if s + 1 < stored {
      LastHeadDecides(heads, canonical, checkpoint, stored, size, s + 1);
      assert SectionLinked(heads, s + 1, size);
      Times(s + 1, size);
      RunHead(HeadOf(heads, s), heads[s + 1], (s + 1) * size, size);
      RunIsCanonical(canonical, HeadOf(heads, s), heads[s + 1], (s + 1) * size, size);
    }
  }

  datatype Phase = Running | Done | Failed

  /** A section being processed: what was read under the lock, and how far the header loop is. */
  datatype Job = Job(section: nat, oldHead: Hash, next: nat, lastHead: Hash, phase: Phase)

  datatype Event =
    | ChainChanges(canonical: map<nat, Hash>, stored: set<Hash>)
    | HeadSeen(head: nat, reorg: bool)
    | UpdateTick
    | ResetBackend(ok: bool)
    | ReadHeader(backendOk: bool)
    | EndUpdate
    | QuerySections
    | CheckpointSeen(section: nat, sectionHead: Hash)

  /** No header above genesis names the all-zero hash as its parent. */
  ghost predicate RealHeaders(headers: set<Hash>) {
    forall h | h in headers :: h.Of? && (h.block.number > 0 ==> h.block.parent.Of?)
  }

  /** The headers read so far are linked to the head of the previous section; on a missing head nothing is. */
  ghost predicate JobLinked(j: Job, size: nat) {
    && (j.section == 0 ==> j.oldHead == Zero)
    && j.section * size <= j.next <= (j.section + 1) * size
    && RunOf(j.oldHead, j.lastHead, j.section * size, j.next - j.section * size)
    && (j.phase == Done ==> j.next == (j.section + 1) * size)
    && (j.section > 0 && j.oldHead == Zero ==> j.next == j.section * size)
  }

  function Min(a: nat, b: nat): nat {
    if a < b then a else b
  }

  function Max(a: nat, b: nat): nat {
    if a < b then b else a
  }

  /** The sections that are complete and confirmed below a head; none below the checkpoint. */
  function Confirmed(head: nat, confirms: nat, size: nat, checkpoint: nat): nat
    requires size > 0
  {
    var sections := if head >= confirms then (head + 1 - confirms) / size else 0;
    if sections < checkpoint then 0 else sections
  }

  /** The sections from `lo` to `hi` lie above the checkpoint and end off the canonical chain. */
  ghost predicate Reorged(heads: map<nat, Hash>, canonical: map<nat, Hash>, checkpoint: nat, lo: nat, hi: nat,
                          size: nat) {
    forall s: nat | lo <= s < hi :: s >= checkpoint && HeadOf(heads, s) != HeadOf(canonical, EndOf(s, size))
  }

  lemma NoneReorged(heads: map<nat, Hash>, canonical: map<nat, Hash>, checkpoint: nat, stored: nat, size: nat)
    ensures Reorged(heads, canonical, checkpoint, stored, stored, size)
  {
  }

  lemma ReorgedStep(all: map<nat, Hash>, heads: map<nat, Hash>, canonical: map<nat, Hash>, checkpoint: nat, lo: nat,
                    hi: nat, size: nat)
    requires Reorged(all, canonical, checkpoint, lo, hi, size) && heads == Truncated(all, lo, hi) && checkpoint < lo
    requires HeadOf(heads, lo - 1) != HeadOf(canonical, EndOf(lo - 1, size))
    ensures Reorged(all, canonical, checkpoint, lo - 1, hi, size)
  {
  }

  /** The heads of the sections from `sections` up to `stored` are deleted; any above that stay in the database. */
  function Truncated(heads: map<nat, Hash>, sections: nat, stored: nat): map<nat, Hash> {
    heads - (set s | s in heads && sections <= s < stored)
  }

  lemma Untouched(heads: map<nat, Hash>, sections: nat, stored: nat)
    requires stored <= sections
    ensures Truncated(heads, sections, stored) == heads
  {
  }

  lemma TruncatedTwice(heads: map<nat, Hash>, sections: nat, middle: nat, stored: nat)
    requires sections <= middle <= stored
    ensures Truncated(Truncated(heads, middle, stored), sections, middle) == Truncated(heads, sections, stored)
  {
  }

  /** Cutting sections off at the top leaves the others linked. */
  lemma Shorter(heads: map<nat, Hash>, from: nat, stored: nat, sections: nat, size: nat)
    requires SectionsLinked(heads, from, stored, size) && sections <= stored
    ensures SectionsLinked(Truncated(heads, sections, stored), from, sections, size)
  {
    hide RunOf;
    forall s: nat | from <= s < sections
      ensures SectionLinked(Truncated(heads, sections, stored), s, size)
    {
      assert SectionLinked(heads, s, size);
      assert HeadOf(Truncated(heads, sections, stored), s - 1) == HeadOf(heads, s - 1);
    }
  }

  lemma CanonicalBelow(heads: map<nat, Hash>, canonical: map<nat, Hash>, checkpoint: nat, stored: nat, size: nat)
    requires size > 0 && SectionsLinked(heads, checkpoint, stored, size) && stored > 0
    requires HeadOf(heads, stored - 1) == HeadOf(canonical, EndOf(stored - 1, size))
    ensures Consistent(canonical) ==> forall s: nat | checkpoint <= s < stored ::
              HeadOf(heads, s) == HeadOf(canonical, EndOf(s, size))
  {
    if Consistent(canonical) {
      forall s: nat | checkpoint <= s < stored
        ensures HeadOf(heads, s) == HeadOf(canonical, EndOf(s, size))
      {
        LastHeadDecides(heads, canonical, checkpoint, stored, size, s);
      }
    }
  }

  /** The sections that fit below a height are exactly those that end at or below it. */
  lemma SectionsEnd(known: nat, size: nat, head: nat)
    requires size > 0 && known == (head + 1) / size
    ensures forall s: nat :: s < known <==> EndOf(s, size) <= head
  {
    forall s: nat
      ensures s < known <==> EndOf(s, size) <= head
    {
      Quotient(head + 1, size);
      if s < known {
        MulMonotone(s + 1, known, size);
      } else {
        MulMonotone(known + 1, s + 1, size);
      }
    }
  }

  /**
   The sections counted are exactly those whose last block has the required confirmations, unless these
   are fewer than the checkpoint's.
   */
  lemma ConfirmedMeaning(head: nat, confirms: nat, size: nat, checkpoint: nat)
    requires size > 0
    ensures var sections := Confirmed(head, confirms, size, checkpoint);
            && (forall s: nat | s < sections :: EndOf(s, size) + confirms <= head)
            && (forall s: nat | s >= checkpoint && EndOf(s, size) + confirms <= head :: s < sections)
            && (sections == 0 || sections >= checkpoint)
  {
    if head >= confirms {
      SectionsEnd((head + 1 - confirms) / size, size, head - confirms);
    } else {
      EndsAreBlocks(size);
    }
  }

  lemma EndsAreBlocks(size: nat)
    requires size > 0
    ensures forall s: nat :: EndOf(s, size) >= 0
  {
    forall s: nat
      ensures EndOf(s, size) >= 0
    {
      MulMonotone(1, s + 1, size);
    }
  }

  lemma {:induction false} MulMonotone(a: nat, b: nat, size: nat)
    requires a <= b
    ensures a * size <= b * size
    decreases b - a
  {
    if a < b {
      MulMonotone(a, b - 1, size);
      assert b * size == (b - 1) * size + size;
    }
  }

  lemma Quotient(x: nat, size: nat)
    requires size > 0
    ensures x / size * size <= x
  {
  }

  lemma JobStarts(section: nat, oldHead: Hash, size: nat)
    ensures RunOf(oldHead, oldHead, section * size, 0)
    ensures section * size <= (section + 1) * size
  {
    assert (section + 1) * size == section * size + size;
  }

  lemma RunEmpty(last: Hash, head: Hash, first: nat)
    ensures RunOf(last, head, first, 0) ==> head == last
  {
  }

  lemma RunGrows(last: Hash, head: Hash, next: Hash, first: nat, count: nat)
    requires RunOf(last, head, first, count)
    requires next.Of? && next.block.number == first + count && next.block.parent == head
    ensures RunOf(last, next, first, count + 1)
  {
  }

  lemma RunHead(last: Hash, head: Hash, first: nat, count: nat)
    requires RunOf(last, head, first, count) && count > 0
    ensures head.Of?
  {
  }

  /** A job that lost the section below it finds no head there. */
  ghost predicate JobBased(heads: map<nat, Hash>, stored: nat, j: Job) {
    stored < j.section ==> j.section - 1 !in heads
  }

  lemma Stored(heads: map<nat, Hash>, from: nat, stored: nat, size: nat, j: Job)
    requires size > 0 && SectionsLinked(heads, from, stored, size) && (stored <= j.section || j.section < from)
    requires JobLinked(j, size) && JobBased(heads, stored, j)
    requires j.phase == Done && (j.section == 0 || j.oldHead == HeadOf(heads, j.section - 1))
    ensures SectionsLinked(Truncated(heads[j.section := j.lastHead], j.section + 1, stored), from, j.section + 1, size)
  {
    hide RunOf;
    Times(j.section, size);
    RunHead(j.oldHead, j.lastHead, j.section * size, size);
    if j.section >= from {
      assert stored == j.section;
      var heads' := heads[j.section := j.lastHead];
      Untouched(heads', j.section + 1, stored);
      forall s: nat | from <= s < j.section + 1
        ensures SectionLinked(heads', s, size)
      {
        assert s < stored ==> SectionLinked(heads, s, size);
        assert HeadOf(heads', s - 1) == HeadOf(heads, s - 1);
      }
    }
  }

  /** The index is a chain from a parentless block up to `end`, and its headers are there. */
  ghost predicate Reaches(canonical: map<nat, Hash>, headers: set<Hash>, end: nat) {
    && Consistent(canonical) && (0 in canonical ==> canonical[0].block.parent == Zero)
    && forall n: nat | n < end :: n in canonical && canonical[n] in headers
  }

  lemma ChainGoesOn(canonical: map<nat, Hash>, headers: set<Hash>, end: nat, n: nat)
    requires Reaches(canonical, headers, end) && n < end
    ensures var hash := HeadOf(canonical, n);
            hash.Of? && hash in headers && hash.block.number == n && hash.block.parent == HeadOf(canonical, n - 1)
  {
  }

  lemma ReachesBelow(canonical: map<nat, Hash>, headers: set<Hash>, known: nat, sections: nat, size: nat)
    requires Reaches(canonical, headers, known * size) && sections <= known
    ensures Reaches(canonical, headers, sections * size)
  {
    MulMonotone(sections, known, size);
  }

  lemma ReachesConsistent(canonical: map<nat, Hash>, headers: set<Hash>, end: nat)
    requires Reaches(canonical, headers, end)
    ensures Consistent(canonical)
  {
  }

  /** The first block of a section comes after the last one of the section before. */
  lemma StartsOnHead(heads: map<nat, Hash>, canonical: map<nat, Hash>, s: nat, size: nat)
    requires s > 0 ==> HeadOf(heads, s - 1) == HeadOf(canonical, EndOf(s - 1, size))
    ensures HeadOf(heads, s - 1) == HeadOf(canonical, s * size - 1)
  {
  }

  lemma JobRange(j: Job, size: nat)
    requires JobLinked(j, size)
    ensures j.section * size <= j.next <= (j.section + 1) * size
    ensures j.phase == Done ==> j.next == (j.section + 1) * size
  {
  }

  class ChainIndexer {
    const sectionSize: nat
    const confirmsReq: nat
    var checkpointSections: nat
    var checkpointHead: Hash

    // the chain database, changed by others at any time
    var canonical: map<nat, Hash>
    var headers: set<Hash>

    var storedSections: nat
    var knownSections: nat
    var heads: map<nat, Hash>
    var job: Option<Job>
    // the sections from here on are known to be linked
    ghost var linkedFrom: nat

    ghost predicate Valid()
      reads this
    {
      && sectionSize > 0 && checkpointSections <= linkedFrom
      && SectionsLinked(heads, linkedFrom, storedSections, sectionSize)
      && RealHeaders(headers)
      && (job.Some? ==> JobLinked(job.value, sectionSize) && JobBased(heads, storedSections, job.value))
      && (job.Some? ==> storedSections <= job.value.section || job.value.section < linkedFrom)
    }

    /**
     An indexer that starts on the section heads of an earlier run; those from `from` on are linked. A
     process that died between two writes may have left heads above the number of sections.
     */
    constructor (size: nat, confirms: nat, sections: nat, saved: map<nat, Hash>, ghost from: nat)
      requires size > 0 && SectionsLinked(saved, from, sections, size)
      ensures Valid() && storedSections == sections && heads == saved && linkedFrom == from && job == None
      ensures sectionSize == size && confirmsReq == confirms && checkpointSections == 0 && knownSections == 0
    {
      sectionSize, confirmsReq, checkpointSections, checkpointHead := size, confirms, 0, Zero;
      canonical, headers := map[], {};
      storedSections, knownSections, heads := sections, 0, saved;
      job := None;
      linkedFrom := from;
    }

    /** Takes over a trusted section head, unless the checkpoint or the stored sections are past it. */
    method AddCheckpoint(section: nat, head: Hash)
      requires Valid()
      modifies this`checkpointSections, this`checkpointHead, this`storedSections, this`heads, this`linkedFrom
      ensures Valid()
      ensures old(checkpointSections) > section || section < old(storedSections) ==>
                && checkpointSections == old(checkpointSections) && checkpointHead == old(checkpointHead)
                && storedSections == old(storedSections) && heads == old(heads) && linkedFrom == old(linkedFrom)
      ensures old(checkpointSections) <= section && old(storedSections) <= section ==>
                && checkpointSections == storedSections == linkedFrom == section + 1 && checkpointHead == head
                && heads == old(heads)[section := head]
    {
      hide SectionLinked, RunOf, EndOf, JobLinked;
      if checkpointSections >= section + 1 || section < storedSections {
        return;
      }
      checkpointSections, checkpointHead := section + 1, head;
      linkedFrom := section + 1;
      heads := heads[section := head];
      Untouched(heads, section + 1, storedSections);
      SetValidSections(section + 1);
    }

    function SectionHead(section: int): Hash
      reads this
    {
      HeadOf(heads, section)
    }

    /** Sets the number of valid sections, deleting the heads of those that are no longer valid. */
    method SetValidSections(sections: nat)
      modifies this`storedSections, this`heads
      ensures storedSections == sections
      ensures heads == Truncated(old(heads), sections, old(storedSections))
    {
      while storedSections > sections
        invariant storedSections <= old(storedSections)
        invariant heads == Truncated(old(heads), if sections < storedSections then storedSections else sections,
                                     old(storedSections))
        decreases storedSections
      {
        storedSections := storedSections - 1;
        heads := heads - {storedSections};
      }
      storedSections := sections;
    }

    /**
     Drops stored sections from the top while their head is not the canonical block, down to the
     checkpoint. When the index is a consistent chain, checking only the last head is enough:
     everything left that is linked is canonical.
     */
    method VerifyLastHead()
      requires Valid()
      modifies this`storedSections, this`heads
      ensures Valid() && storedSections <= old(storedSections)
      ensures heads == Truncated(old(heads), storedSections, old(storedSections))
      ensures old(storedSections) >= checkpointSections ==> storedSections >= checkpointSections
      ensures Reorged(old(heads), canonical, checkpointSections, storedSections, old(storedSections), sectionSize)
      ensures storedSections > checkpointSections ==>
                SectionHead(storedSections - 1) == HeadOf(canonical, EndOf(storedSections - 1, sectionSize))
      ensures Consistent(canonical) ==> AllCanonical()
    {
      hide SectionLinked, SectionsLinked, RunOf, EndOf, JobLinked, Consistent, Reorged;
      NoneReorged(heads, canonical, checkpointSections, storedSections, sectionSize);
      Untouched(heads, storedSections, storedSections);
      while storedSections > 0 && storedSections > checkpointSections
        invariant Valid() && storedSections <= old(storedSections)
        invariant heads == Truncated(old(heads), storedSections, old(storedSections))
        invariant old(storedSections) >= checkpointSections ==> storedSections >= checkpointSections
        invariant Reorged(old(heads), canonical, checkpointSections, storedSections, old(storedSections), sectionSize)
        decreases storedSections
      {
        if SectionHead(storedSections - 1) == HeadOf(canonical, EndOf(storedSections - 1, sectionSize)) {
          CanonicalBelow(heads, canonical, linkedFrom, storedSections, sectionSize);
          return;
        }
        ReorgedStep(old(heads), heads, canonical, checkpointSections, storedSections, old(storedSections), sectionSize);
        Shorter(heads, linkedFrom, storedSections, storedSections - 1, sectionSize);
        TruncatedTwice(old(heads), storedSections - 1, storedSections, old(storedSections));
        SetValidSections(storedSections - 1);
      }
    }

    /** Every stored section that is known to be linked ends on the canonical chain. */
    ghost predicate AllCanonical()
      reads this
    {
      forall s: nat | linkedFrom <= s < storedSections ::
        HeadOf(heads, s) == HeadOf(canonical, EndOf(s, sectionSize))
    }

    /** A new head, or the height a reorg went back to. */
    method NewHead(head: nat, reorg: bool)
      requires Valid()
      modifies this`storedSections, this`heads, this`knownSections
      ensures Valid()
      ensures reorg ==>
                var whole := (head + 1) / sectionSize;
                && storedSections == Min(old(storedSections), Max(whole, checkpointSections))
                && knownSections == Min(old(knownSections), if whole < checkpointSections then 0 else whole)
      ensures reorg ==> forall s: nat | checkpointSections <= s < old(storedSections) ::
                s < storedSections <==> EndOf(s, sectionSize) <= head
      ensures reorg ==> forall s: nat | s < knownSections :: EndOf(s, sectionSize) <= head
      ensures heads == Truncated(old(heads), storedSections, old(storedSections))
      ensures !reorg ==> storedSections == old(storedSections)
      ensures !reorg ==>
                var sections := Confirmed(head, confirmsReq, sectionSize, checkpointSections);
                var synced := old(knownSections) >= checkpointSections ||
                              HeadOf(canonical, EndOf(checkpointSections - 1, sectionSize)) == checkpointHead;
                && knownSections == (if sections > old(knownSections) && synced then sections else old(knownSections))
                && (synced ==> forall s: nat | s >= checkpointSections && EndOf(s, sectionSize) + confirmsReq <= head ::
                      s < knownSections)
      ensures !reorg ==> forall s: nat | old(knownSections) <= s < knownSections ::
                EndOf(s, sectionSize) + confirmsReq <= head
    {
      hide SectionLinked, SectionsLinked, RunOf, EndOf, JobLinked;
      ConfirmedMeaning(head, confirmsReq, sectionSize, checkpointSections);
      Untouched(heads, storedSections, storedSections);
      if reorg {
        var known := (head + 1) / sectionSize;
        var stored := known;
        SectionsEnd(known, sectionSize, head);
        if known < checkpointSections {
          known := 0;
        }
        if stored < checkpointSections {
          stored := checkpointSections;
        }
        if known < knownSections {
          knownSections := known;
        }
        if stored < storedSections {
          Shorter(heads, linkedFrom, storedSections, stored, sectionSize);
          SetValidSections(stored);
        }
        return;
      }
      if head >= confirmsReq {
        var sections := (head + 1 - confirmsReq) / sectionSize;
        if sections < checkpointSections {
          sections := 0;
        }
        if sections > knownSections {
          if knownSections < checkpointSections {
            var syncedHead := HeadOf(canonical, EndOf(checkpointSections - 1, sectionSize));
            if syncedHead != checkpointHead {
              return;
            }
          }
          knownSections := sections;
        }
      }
    }

    /** The locked start of an update: picks the next section and remembers the head it builds on. */
    method BeginUpdate()
      requires Valid()
      modifies this`storedSections, this`heads, this`job
      ensures Valid()
      ensures storedSections <= old(storedSections)
      ensures heads == Truncated(old(heads), storedSections, old(storedSections))
      ensures Reorged(old(heads), canonical, checkpointSections, storedSections, old(storedSections), sectionSize)
      ensures if old(job) == None && knownSections > old(storedSections)
              then && job == Some(Job(storedSections, SectionHead(storedSections - 1), storedSections * sectionSize,
                                      SectionHead(storedSections - 1), Running))
                   && (storedSections > checkpointSections ==>
                         SectionHead(storedSections - 1) == HeadOf(canonical, EndOf(storedSections - 1, sectionSize)))
                   && (Consistent(canonical) ==> AllCanonical())
              else job == old(job) && storedSections == old(storedSections)
    {
      hide SectionLinked, RunOf, EndOf, Consistent, Reorged;
      NoneReorged(heads, canonical, checkpointSections, storedSections, sectionSize);
      Untouched(heads, storedSections, storedSections);
      if job == None && knownSections > storedSections {
        VerifyLastHead();
        var section := storedSections;
        var oldHead := Zero;
        if section > 0 {
          oldHead := SectionHead(section - 1);
        }
        JobStarts(section, oldHead, sectionSize);
        job := Some(Job(section, oldHead, section * sectionSize, oldHead, Running));
      }
    }

    /** The backend refuses to start the section: all sections are invalidated. */
    method ResetFails()
      requires Valid() && job.Some?
      modifies this`storedSections, this`heads, this`job
      ensures Valid() && storedSections == 0 && heads == Truncated(old(heads), 0, old(storedSections))
      ensures job == Some(old(job).value.(phase := Failed))
    {
      hide SectionLinked, RunOf, EndOf;
      SetValidSections(0);
      job := Some(job.value.(phase := Failed));
    }

    /** One iteration of the header loop, without the lock: reads the index, then the header. */
    method ProcessHeader(backendOk: bool)
      requires Valid() && job.Some? && job.value.phase == Running
      modifies this`job
      ensures Valid() && job.Some?
      ensures var j := old(job).value; var hash := HeadOf(canonical, j.next);
              if j.next == (j.section + 1) * sectionSize
              then job == Some(j.(phase := if backendOk then Done else Failed))
              else if backendOk && hash.Of? && hash in headers && hash.block.number == j.next &&
                      hash.block.parent == j.lastHead
              then job == Some(j.(next := j.next + 1, lastHead := hash))
              else job == Some(j.(phase := Failed))
    {
      hide SectionLinked, RunOf, EndOf;
      var j := job.value;
      if j.next == (j.section + 1) * sectionSize {
        job := Some(j.(phase := if backendOk then Done else Failed));
        return;
      }
      var hash := HeadOf(canonical, j.next);
      if hash == Zero || hash !in headers || hash.block.number != j.next || hash.block.parent != j.lastHead ||
         !backendOk {
        job := Some(j.(phase := Failed));
        return;
      }
      Times(j.section, sectionSize);
      RunEmpty(j.oldHead, j.lastHead, j.section * sectionSize);
      RunGrows(j.oldHead, j.lastHead, hash, j.section * sectionSize, j.next - j.section * sectionSize);
      job := Some(j.(next := j.next + 1, lastHead := hash));
    }

    /** The locked end of an update: stores the section unless the previous head is gone by now. */
    method EndUpdate()
      requires Valid() && job.Some? && job.value.phase != Running
      modifies this`storedSections, this`heads, this`knownSections, this`job
      ensures Valid() && job == None
      ensures var j := old(job).value;
              if j.phase == Done && (j.section == 0 || j.oldHead == HeadOf(old(heads), j.section - 1))
              then && storedSections == j.section + 1
                   && heads == Truncated(old(heads)[j.section := j.lastHead], j.section + 1, old(storedSections))
                   && knownSections == old(knownSections)
              else && storedSections <= old(storedSections) && knownSections == storedSections
                   && heads == Truncated(old(heads), storedSections, old(storedSections))
                   && Reorged(old(heads), canonical, checkpointSections, storedSections, old(storedSections),
                              sectionSize)
                   && (storedSections > checkpointSections ==>
                         SectionHead(storedSections - 1) == HeadOf(canonical, EndOf(storedSections - 1, sectionSize)))
                   && (Consistent(canonical) ==> AllCanonical())
    {
      hide SectionLinked, SectionsLinked, RunOf, EndOf, Consistent, Reorged;
      var j := job.value;
      job := None;
      if j.phase == Done && (j.section == 0 || j.oldHead == SectionHead(j.section - 1)) {
        Stored(heads, linkedFrom, storedSections, sectionSize, j);
        heads := heads[j.section := j.lastHead];
        SetValidSections(j.section + 1);
      } else {
        VerifyLastHead();
        knownSections := storedSections;
      }
    }

    /** Any interleaving of notifications, chain changes and processing steps keeps the sections linked. */
    method Run(events: seq<Event>)
      requires Valid() && forall i :: 0 <= i < |events| && events[i].ChainChanges? ==> RealHeaders(events[i].stored)
      modifies this
      ensures Valid() && SectionsLinked(heads, linkedFrom, storedSections, sectionSize)
      ensures linkedFrom == old(linkedFrom) || linkedFrom == checkpointSections
    {
      hide SectionsLinked, RunOf, JobLinked, EndOf;
      for i := 0 to |events|
        invariant Valid() && (linkedFrom == old(linkedFrom) || linkedFrom == checkpointSections)
      {
        match events[i] {
          case ChainChanges(c, known) =>
            canonical, headers := c, known;
          case HeadSeen(head, reorg) =>
            NewHead(head, reorg);
          case UpdateTick =>
            BeginUpdate();
          case ResetBackend(ok) =>
            if job.Some? && !ok {
              ResetFails();
            }
          case ReadHeader(backendOk) =>
            if job.Some? && job.value.phase == Running {
              ProcessHeader(backendOk);
            }
          case EndUpdate =>
            if job.Some? && job.value.phase != Running {
              EndUpdate();
            }
          case QuerySections =>
            VerifyLastHead();
          case CheckpointSeen(section, head) =>
            AddCheckpoint(section, head);
        }
      }
    }

    /** The last stored section ends on the chain. */
    ghost predicate LastCanonical()
      reads this
    {
      storedSections > 0 ==>
        SectionHead(storedSections - 1) == HeadOf(canonical, EndOf(storedSections - 1, sectionSize))
    }

    /** What may be built on: the checkpoint, if there is one, is on the chain. */
    ghost predicate BaseReady()
      reads this
    {
      && checkpointSections <= storedSections
      && (checkpointSections > 0 ==> SectionHead(checkpointSections - 1) ==
                                     HeadOf(canonical, EndOf(checkpointSections - 1, sectionSize)))
    }

    /** An undisturbed job reads all headers of its section. */
    method FinishJob()
      requires Valid() && job.Some? && job.value.phase == Running
      requires job.value.lastHead == HeadOf(canonical, job.value.next - 1)
      requires Reaches(canonical, headers, (job.value.section + 1) * sectionSize)
      modifies this`job
      ensures Valid() && job.Some? && job.value.phase == Done
      ensures job.value.section == old(job).value.section && job.value.oldHead == old(job).value.oldHead
      ensures job.value.lastHead == HeadOf(canonical, EndOf(job.value.section, sectionSize))
    {
      hide SectionLinked, SectionsLinked, RunOf, Consistent, Reaches, JobLinked, JobBased, RealHeaders;
      var section, end := job.value.section, (job.value.section + 1) * sectionSize;
      while job.value.phase == Running
        invariant Valid() && job.Some? && (job.value.phase == Running || job.value.phase == Done)
        invariant job.value.section == section && job.value.oldHead == old(job).value.oldHead
        invariant job.value.lastHead == HeadOf(canonical, job.value.next - 1)
        decreases end - job.value.next, if job.value.phase == Running then 1 else 0
      {
        JobRange(job.value, sectionSize);
        if job.value.next < end {
          ChainGoesOn(canonical, headers, end, job.value.next);
        }
        ProcessHeader(true);
      }
      JobRange(job.value, sectionSize);
    }

    /** An undisturbed update stores exactly one section more than were verified, and its head is on the chain. */
    method IndexNext() returns (ghost verified: nat)
      requires Valid() && job == None && storedSections < knownSections && BaseReady()
      requires Reaches(canonical, headers, knownSections * sectionSize)
      modifies this`storedSections, this`heads, this`knownSections, this`job
      ensures Valid() && job == None && knownSections == old(knownSections) && BaseReady() && LastCanonical()
      ensures checkpointSections <= verified <= old(storedSections) && storedSections == verified + 1
      ensures old(LastCanonical()) ==> verified == old(storedSections)
    {
      hide SectionLinked, SectionsLinked, RunOf, Consistent, Reaches, JobLinked, JobBased, RealHeaders, EndOf;
      BeginUpdate();
      verified := storedSections;
      StartsOnHead(heads, canonical, verified, sectionSize);
      assert checkpointSections <= verified && (old(LastCanonical()) ==> verified == old(storedSections));
      hide Reorged;
      ReachesBelow(canonical, headers, knownSections, verified + 1, sectionSize);
      FinishJob();
      EndUpdate();
    }

    /**
     While the chain stands still, updates index all known sections: every section that is known to be linked
     then ends on the chain.
     */
    method IndexAll()
      requires Valid() && job == None && BaseReady() && Reaches(canonical, headers, knownSections * sectionSize)
      modifies this`storedSections, this`heads, this`knownSections, this`job
      ensures Valid() && job == None && knownSections == old(knownSections)
      ensures storedSections == Max(old(storedSections), knownSections)
      ensures old(storedSections) < knownSections ==> AllCanonical()
    {
      hide SectionLinked, SectionsLinked, RunOf, Consistent, Reaches, JobLinked, JobBased, RealHeaders, EndOf;
      if storedSections >= knownSections {
        return;
      }
      ghost var verified := IndexNext();
      while storedSections < knownSections
        invariant Valid() && job == None && BaseReady() && LastCanonical() && knownSections == old(knownSections)
        invariant 0 < storedSections <= knownSections
      {
        verified := IndexNext();
      }
      ReachesConsistent(canonical, headers, knownSections * sectionSize);
      CanonicalBelow(heads, canonical, linkedFrom, storedSections, sectionSize);
    }
  }
}
