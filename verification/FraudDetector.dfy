/**
 The fraud detector's resumable scan (boba_community/fraud-detector/fraud-detector.py), as a step
 machine: the process may die between any two steps and is then started again from its checkpoint
 file.

 The confirmed L1 chain is a fixed sequence of published state roots in block order; how far it is
 visible is up to the tips that the steps are given. The verifier's state roots are fixed; what the
 L2 node answers, if it is asked, is an input of the step.
 */
module FraudDetector {
  import opened Wrappers

  type Root = nat

  /** A state root published in an L1 block. */
  datatype Entry = Entry(block: nat, root: Root)

  /** What is logged for a root: the L2 index it was compared at, and where it came from. */
  datatype Line = Line(index: int, entry: Entry)

  datatype Checkpoint = Checkpoint(index: int, block: nat)

  /** A range of L1 blocks asked for its events, both ends included. */
  datatype Range = Range(from: nat, to: nat)

  const BATCH_SIZE := 1000

  ghost predicate Sorted(chain: seq<Entry>) {
    forall i, j :: 0 <= i < j < |chain| ==> chain[i].block <= chain[j].block
  }

  /** The roots that a query for the blocks `from` to `to` returns. */
  function Logs(chain: seq<Entry>, from: nat, to: nat): seq<Entry> {
    if chain == [] then []
    else (if from <= chain[0].block <= to then [chain[0]] else []) + Logs(chain[1..], from, to)
  }

  /** How many roots were published below a block. */
  ghost function Pos(chain: seq<Entry>, block: nat): (n: nat)
    ensures n <= |chain|
  {
    if chain == [] || chain[0].block >= block then 0 else 1 + Pos(chain[1..], block)
  }

  lemma {:induction false} PosSplits(chain: seq<Entry>, block: nat)
    requires Sorted(chain)
    ensures forall k :: 0 <= k < |chain| ==> (k < Pos(chain, block) <==> chain[k].block < block)
  {
    if chain != [] && chain[0].block < block {
      PosSplits(chain[1..], block);
      forall k | 0 <= k < |chain|
        ensures k < Pos(chain, block) <==> chain[k].block < block
      {
        assert k > 0 ==> chain[k] == chain[1..][k - 1];
      }
    }
  }

  lemma PosMonotone(chain: seq<Entry>, a: nat, b: nat)
    requires Sorted(chain) && a <= b
    ensures Pos(chain, a) <= Pos(chain, b)
  {
    PosSplits(chain, a);
    PosSplits(chain, b);
  }

  /** The position of a root that is the first of its block. */
  lemma PosFirst(chain: seq<Entry>, n: nat)
    requires Sorted(chain) && n < |chain| && (n > 0 ==> chain[n - 1].block < chain[n].block)
    ensures Pos(chain, chain[n].block) == n
  {
    PosSplits(chain, chain[n].block);
  }

  lemma SliceStep(chain: seq<Entry>, from: nat, to: nat)
    requires Sorted(chain) && from <= to && chain != []
    requires Pos(chain[1..], from) <= Pos(chain[1..], to + 1) && Pos(chain, from) <= Pos(chain, to + 1)
    ensures chain[Pos(chain, from)..Pos(chain, to + 1)] ==
            (if from <= chain[0].block <= to then [chain[0]] else []) +
            chain[1..][Pos(chain[1..], from)..Pos(chain[1..], to + 1)]
  {
    var more := chain[1..];
    var a, b := Pos(more, from), Pos(more, to + 1);
    if chain[0].block < from {
      assert forall k :: a <= k < b ==> chain[1 + k] == more[k];
      assert chain[1 + a..1 + b] == more[a..b];
    } else if chain[0].block <= to {
      assert a == 0;
      assert chain[0..1 + b] == [chain[0]] + more[0..b];
    } else {
      assert a == 0 && b == 0;
    }
  }

  /** A query returns a contiguous stretch of the chain. */
  lemma {:induction false} LogsSlice(chain: seq<Entry>, from: nat, to: nat)
    requires Sorted(chain) && from <= to
    ensures Pos(chain, from) <= Pos(chain, to + 1)
    ensures Logs(chain, from, to) == chain[Pos(chain, from)..Pos(chain, to + 1)]
  {
    PosMonotone(chain, from, to + 1);
    if chain != [] {
      LogsSlice(chain[1..], from, to);
      SliceStep(chain, from, to);
    }
  }

  /** Where the compared root agrees with the verifier's. */
  ghost predicate Matches(chain: seq<Entry>, first: int, verifier: int -> Root, k: nat)
    requires k < |chain|
  {
    chain[k].root == verifier(first + k)
  }

  ghost predicate AllMatch(chain: seq<Entry>, first: int, verifier: int -> Root, from: nat, to: nat)
    requires to <= |chain|
  {
    forall k :: from <= k < to ==> Matches(chain, first, verifier, k)
  }

  /** A checkpoint to resume from: it has the index of its block's first root, and all below it match. */
  ghost predicate Good(chain: seq<Entry>, first: int, verifier: int -> Root, c: Checkpoint) {
    c.index == first + Pos(chain, c.block) && AllMatch(chain, first, verifier, 0, Pos(chain, c.block))
  }

  /** What one uninterrupted scan would log. */
  function ScanOnce(chain: seq<Entry>, first: int): seq<Line> {
    seq(|chain|, k requires 0 <= k < |chain| => Line(first + k, chain[k]))
  }

  /** Ranges that follow each other without a gap or an overlap, from `from` up to below `to`. */
  ghost predicate Contiguous(ranges: seq<Range>, from: nat, to: nat) {
    if ranges == [] then from == to
    else
      var last := ranges[|ranges| - 1];
      last.from <= last.to && last.to + 1 == to && Contiguous(ranges[..|ranges| - 1], from, last.from)
  }

  /** Every line has the index that one uninterrupted scan gives its root. */
  ghost predicate Logged(chain: seq<Entry>, first: int, lines: seq<Line>) {
    forall l :: l in lines ==> 0 <= l.index - first < |chain| && l == ScanOnce(chain, first)[l.index - first]
  }

  ghost predicate EndsWith(all: seq<Line>, tail: seq<Line>) {
    |tail| <= |all| && all[|all| - |tail|..] == tail
  }

  /** After `done` roots the checkpoint is at the first root of the last one's block, or where the run started. */
  ghost predicate Counted(chain: seq<Entry>, first: int, base: nat, done: int, c: Checkpoint) {
    && Pos(chain, base) <= done <= |chain|
    && c.index == first + Pos(chain, c.block)
    && base <= c.block && Pos(chain, c.block) <= done
    && c.block == (if done > Pos(chain, base) then chain[done - 1].block else base)
  }

  /** All roots before the run match; as long as nothing was noticed, so do those of the run. */
  ghost predicate Compared(chain: seq<Entry>, first: int, verifier: int -> Root, from: nat, done: int, isOk: bool) {
    && from <= done <= |chain|
    && AllMatch(chain, first, verifier, 0, from)
    && (isOk ==> AllMatch(chain, first, verifier, from, done))
  }

  /** The run logged each root once and in order, and reports only matching ones as matched. */
  ghost predicate Reported(chain: seq<Entry>, first: int, verifier: int -> Root, from: nat, done: int,
                           lines: seq<Line>, matched: Option<Line>)
  {
    && from <= done <= |chain|
    && lines == ScanOnce(chain, first)[from..done]
    && (matched.Some? ==> matched.value in lines && matched.value.entry.root == verifier(matched.value.index))
  }

  /** The roots done are those below the next block to ask for; inside a batch, the rest of it is pending. */
  ghost predicate Positioned(chain: seq<Entry>, base: nat, done: int, next: nat, phase: Phase, ranges: seq<Range>) {
    match phase
    case Down => true
    case Loaded => done == Pos(chain, base) && ranges == []
    case Scanning(live, to, pending) =>
      && 0 <= done <= Pos(chain, to + 1)
      && pending == chain[done..Pos(chain, to + 1)]
      && Contiguous(ranges, base, to + 1)
    case _ => done == Pos(chain, next) && Contiguous(ranges, base, next)
  }

  lemma Extended(ranges: seq<Range>, base: nat, from: nat, to: nat)
    requires Contiguous(ranges, base, from) && from <= to
    ensures Contiguous(ranges + [Range(from, to)], base, to + 1)
  {
    var more := ranges + [Range(from, to)];
    assert more[..|more| - 1] == ranges;
  }

  /** What a running process holds. */
  datatype Memory = Memory(phase: Phase, base: nat, next: nat, done: int, checkpoint: Checkpoint, isOk: bool,
                           matched: Option<Line>, ranges: seq<Range>, runLog: seq<Line>)

  ghost predicate Running(chain: seq<Entry>, first: int, verifier: int -> Root, log: seq<Line>, m: Memory) {
    && Counted(chain, first, m.base, m.done, m.checkpoint)
    && Compared(chain, first, verifier, Pos(chain, m.base), m.done, m.isOk)
    && Reported(chain, first, verifier, Pos(chain, m.base), m.done, m.runLog, m.matched)
    && Positioned(chain, m.base, m.done, m.next, m.phase, m.ranges)
    && (m.phase.Writing? ==> m.isOk)
    && EndsWith(log, m.runLog)
  }

  lemma RunStarts(chain: seq<Entry>, first: int, verifier: int -> Root, log: seq<Line>, start: Checkpoint, next: nat)
    requires Good(chain, first, verifier, start)
    ensures Running(chain, first, verifier, log,
                    Memory(Loaded, start.block, next, start.index - first, start, true, None, [], []))
  {
  }

  // ---------- one more root ----------

  /** The memory after the next pending root, which may have been found to differ. */
  function AfterRoot(first: int, m: Memory, differs: bool): Memory
    requires m.phase.Scanning? && m.phase.pending != []
  {
    var entry := m.phase.pending[0];
    var line := Line(first + m.done, entry);
    m.(phase := m.phase.(pending := m.phase.pending[1..]),
       done := m.done + 1,
       checkpoint := if entry.block > m.checkpoint.block then Checkpoint(first + m.done, entry.block) else m.checkpoint,
       isOk := m.isOk && !differs,
       matched := if differs then m.matched else Some(line),
       runLog := m.runLog + [line])
  }

  lemma RootProcessed(chain: seq<Entry>, first: int, verifier: int -> Root, log: seq<Line>, m: Memory, differs: bool)
    requires Sorted(chain) && Running(chain, first, verifier, log, m) && Logged(chain, first, log)
    requires m.phase.Scanning? && m.phase.pending != []
    requires !differs ==> m.phase.pending[0].root == verifier(first + m.done)
    ensures var line := Line(first + m.done, m.phase.pending[0]);
            && Running(chain, first, verifier, log + [line], AfterRoot(first, m, differs))
            && Logged(chain, first, log + [line])
  {
    hide Counted, Compared, Reported, Logged, Pos, Positioned, EndsWith, Sorted;
    PendingIsNext(chain, m.base, m.done, m.next, m.phase, m.ranges);
    RootCounted(chain, first, m.base, m.done, m.checkpoint);
    RootReported(chain, first, verifier, Pos(chain, m.base), m.done, m.runLog, log, m.matched);
    RootCompared(chain, first, verifier, Pos(chain, m.base), m.done, m.isOk);
  }

  lemma PendingIsNext(chain: seq<Entry>, base: nat, done: int, next: nat, phase: Phase, ranges: seq<Range>)
    requires phase.Scanning? && phase.pending != [] && Positioned(chain, base, done, next, phase, ranges)
    ensures 0 <= done < |chain| && phase.pending[0] == chain[done]
    ensures Positioned(chain, base, done + 1, next, phase.(pending := phase.pending[1..]), ranges)
  {
  }

  lemma RootCounted(chain: seq<Entry>, first: int, base: nat, done: int, c: Checkpoint)
    requires Sorted(chain) && Counted(chain, first, base, done, c) && done < |chain|
    ensures Counted(chain, first, base, done + 1,
                    if chain[done].block > c.block then Checkpoint(first + done, chain[done].block) else c)
  {
    var block := chain[done].block;
    PosSplits(chain, base);
    if block > c.block {
      PosFirst(chain, done);
    }
  }

  lemma RootCompared(chain: seq<Entry>, first: int, verifier: int -> Root, from: nat, done: int, isOk: bool)
    requires Compared(chain, first, verifier, from, done, isOk) && done < |chain|
    ensures chain[done].root == verifier(first + done) ==> Compared(chain, first, verifier, from, done + 1, isOk)
    ensures Compared(chain, first, verifier, from, done + 1, false)
  {
  }

  lemma RootReported(chain: seq<Entry>, first: int, verifier: int -> Root, from: nat, done: int,
                     lines: seq<Line>, log: seq<Line>, matched: Option<Line>)
    requires Reported(chain, first, verifier, from, done, lines, matched) && Logged(chain, first, log) && done < |chain|
    ensures var line := Line(first + done, chain[done]);
            && Logged(chain, first, log + [line])
            && Reported(chain, first, verifier, from, done + 1, lines + [line], matched)
            && (chain[done].root == verifier(first + done) ==>
                  Reported(chain, first, verifier, from, done + 1, lines + [line], Some(line)))
            && (EndsWith(log, lines) ==> EndsWith(log + [line], lines + [line]))
  {
    var all, line := ScanOnce(chain, first), Line(first + done, chain[done]);
    assert all[done] == line && all[from..done + 1] == all[from..done] + [line];
  }

  datatype Phase =
    | Down
    | Loaded
    | CatchUp
    | Live
    | Scanning(live: bool, to: nat, pending: seq<Entry>)
    | Saving(live: bool)
    | Writing(live: bool)

  /** What the environment decides: the tip less the confirmations, the L2 node's answer, and crashes. */
  datatype Input = Step(tip: int, l2: Option<Root>) | Crash

  ghost predicate NoMismatchBelow(chain: seq<Entry>, first: int, verifier: int -> Root, block: nat) {
    forall k :: 0 <= k < |chain| && chain[k].block < block ==> chain[k].root == verifier(first + k)
  }

  ghost predicate LoggedBetween(chain: seq<Entry>, first: int, log: seq<Line>, from: nat, to: nat) {
    forall k :: 0 <= k < |chain| && from <= chain[k].block < to ==> Line(first + k, chain[k]) in log
  }

  lemma MatchesBelow(chain: seq<Entry>, first: int, verifier: int -> Root, block: nat)
    requires Sorted(chain) && AllMatch(chain, first, verifier, 0, Pos(chain, block))
    ensures NoMismatchBelow(chain, first, verifier, block)
  {
    PosSplits(chain, block);
    forall k | 0 <= k < |chain| && chain[k].block < block
      ensures chain[k].root == verifier(first + k)
    {
      assert Matches(chain, first, verifier, k);
    }
  }

  lemma SavedIsSafe(chain: seq<Entry>, first: int, verifier: int -> Root, c: Checkpoint)
    requires Sorted(chain) && Good(chain, first, verifier, c)
    ensures NoMismatchBelow(chain, first, verifier, c.block)
  {
    MatchesBelow(chain, first, verifier, c.block);
  }

  /** Between batches, everything below the next block was logged by this run, and matches unless noticed. */
  lemma PassedIsSafe(chain: seq<Entry>, first: int, verifier: int -> Root, log: seq<Line>, m: Memory)
    requires Sorted(chain) && Running(chain, first, verifier, log, m) && (m.phase == CatchUp || m.phase == Live)
    ensures Contiguous(m.ranges, m.base, m.next)
    ensures LoggedBetween(chain, first, log, m.base, m.next)
    ensures m.isOk ==> NoMismatchBelow(chain, first, verifier, m.next)
  {
    if m.isOk {
      MatchesBelow(chain, first, verifier, m.next);
    }
    PosSplits(chain, m.base);
    PosSplits(chain, m.next);
    var from, all := Pos(chain, m.base), ScanOnce(chain, first);
    forall k | 0 <= k < |chain| && m.base <= chain[k].block < m.next
      ensures Line(first + k, chain[k]) in log
    {
      assert m.runLog[k - from] == all[k] == Line(first + k, chain[k]);
      assert log[|log| - |m.runLog| + (k - from)] == m.runLog[k - from];
    }
  }

  /** The alarm is raised exactly if a root compared so far differs from the verifier's. */
  ghost predicate Exact(chain: seq<Entry>, first: int, verifier: int -> Root, m: Memory) {
    && Pos(chain, m.base) <= m.done <= |chain|
    && (m.isOk <==> AllMatch(chain, first, verifier, Pos(chain, m.base), m.done))
  }

  lemma ExactAtStart(chain: seq<Entry>, first: int, verifier: int -> Root, log: seq<Line>, m: Memory)
    requires Running(chain, first, verifier, log, m) && m.phase == Loaded && m.isOk
    ensures Exact(chain, first, verifier, m)
  {
  }

  lemma ExactStep(chain: seq<Entry>, first: int, verifier: int -> Root, log: seq<Line>, m: Memory, differs: bool)
    requires Running(chain, first, verifier, log, m) && Exact(chain, first, verifier, m)
    requires m.phase.Scanning? && m.phase.pending != []
    requires differs <==> m.phase.pending[0].root != verifier(first + m.done)
    ensures Exact(chain, first, verifier, AfterRoot(first, m, differs))
  {
    hide Counted, Compared, Reported, EndsWith;
    assert m.phase.pending[0] == chain[m.done];
    assert differs <==> !Matches(chain, first, verifier, m.done);
  }

  /** Between batches, exactly the roots below the next block are done. */
  lemma AtRest(chain: seq<Entry>, first: int, verifier: int -> Root, log: seq<Line>, m: Memory)
    requires Running(chain, first, verifier, log, m) && (m.phase == CatchUp || m.phase == Live)
    ensures m.done == Pos(chain, m.next) && Pos(chain, m.base) <= m.done <= |chain|
    ensures m.checkpoint.block == if m.done > Pos(chain, m.base) then chain[m.done - 1].block else m.base
  {
  }

  class Detector {
    const chain: seq<Entry>
    const verifier: int -> Root
    const deployment: nat
    const first: int

    var file: Option<Checkpoint>
    var log: seq<Line>

    var phase: Phase
    var base: nat
    var l1Tip: int
    var startBlock: nat
    var rCount: int
    var checkpoint: Checkpoint
    var lastSaved: nat
    var isOk: bool
    var matched: Option<Line>
    var ranges: seq<Range>
    var runLog: seq<Line>

    constructor (chain: seq<Entry>, verifier: int -> Root, deployment: nat, first: int)
      requires Sorted(chain) && forall e :: e in chain ==> e.block >= deployment
      ensures Valid() && phase == Down && file == None && log == []
      ensures this.chain == chain && this.verifier == verifier && this.deployment == deployment && this.first == first
    {
      this.chain, this.verifier, this.deployment, this.first := chain, verifier, deployment, first;
      file, log, phase := None, [], Down;
    }

    /** The roots processed so far, counted from the first one ever published. */
    ghost function Done(): int
      reads this
    {
      rCount + 1 - first
    }

    ghost predicate Valid()
      reads this
    {
      && Sorted(chain) && Pos(chain, deployment) == 0
      && (file.Some? ==> Good(chain, first, verifier, file.value))
      && Logged(chain, first, log)
      && (phase != Down ==> Running(chain, first, verifier, log, Current()))
    }

    ghost function Current(): Memory
      reads this
    {
      Memory(phase, base, startBlock, Done(), checkpoint, isOk, matched, ranges, runLog)
    }

    /** Start of the process: resume at the checkpoint file if it can be read, at the defaults otherwise. */
    method Load()
      requires Valid() && phase == Down
      modifies this
      ensures Valid() && phase == Loaded && file == old(file) && log == old(log)
      ensures checkpoint == if file.Some? then file.value else Checkpoint(first, deployment)
      ensures base == lastSaved == checkpoint.block && rCount == checkpoint.index - 1
      ensures isOk && matched == None && ranges == [] && runLog == []
    {
      var start := if file.Some? then file.value else Checkpoint(first, deployment);
      assert Good(chain, first, verifier, start);
      RunStarts(chain, first, verifier, log, start, startBlock);
      hide Running, Logged, Sorted, Pos, Good;
      base := start.block;
      rCount := start.index - 1;
      checkpoint := start;
      lastSaved := base;
      isOk := true;
      matched := None;
      ranges, runLog := [], [];
      phase := Loaded;
    }

    /** The scan starts only when the tip is above the block to resume from; otherwise the process ends. */
    method Begin(tip: int)
      requires Valid() && phase == Loaded
      modifies this`phase, this`l1Tip, this`startBlock
      ensures Valid()
      ensures phase == if tip > base then CatchUp else Down
      ensures phase == CatchUp ==> l1Tip == tip && startBlock == base
    {
      if tip <= base {
        phase := Down;
        return;
      }
      l1Tip := tip;
      startBlock := base;
      phase := CatchUp;
    }

    /** Asks for the next stretch of blocks. */
    method Fetch(to: nat, live: bool)
      requires Valid() && phase == (if live then Live else CatchUp) && startBlock <= to
      modifies this`phase, this`ranges
      ensures Valid() && phase == Scanning(live, to, Logs(chain, startBlock, to))
      ensures ranges == old(ranges) + [Range(startBlock, to)]
    {
      hide Counted, Compared, Reported, Good, Logged, Logs, Pos;
      Extended(ranges, base, startBlock, to);
      LogsSlice(chain, startBlock, to);
      ranges := ranges + [Range(startBlock, to)];
      phase := Scanning(live, to, Logs(chain, startBlock, to));
    }

    /** Catching up to the tip seen at the start, at most 1000 blocks at a time. */
    method NextBatch()
      requires Valid() && phase == CatchUp
      modifies this`phase, this`ranges
      ensures Valid()
      ensures if startBlock >= l1Tip then phase == Live && ranges == old(ranges)
              else phase.Scanning? && !phase.live && startBlock <= phase.to < l1Tip &&
                   (phase.to + 1 == l1Tip || phase.to + 1 == startBlock + 1000 < l1Tip) &&
                   ranges == old(ranges) + [Range(startBlock, phase.to)]
    {
      if startBlock < l1Tip {
        var end := if startBlock + BATCH_SIZE < l1Tip then startBlock + BATCH_SIZE else l1Tip;
        Fetch(end - 1, false);
      } else {
        phase := Live;
      }
    }

    method NextLive(tip: int)
      requires Valid() && phase == Live
      modifies this`phase, this`ranges
      ensures Valid()
      ensures if startBlock <= tip
              then phase == Scanning(true, tip, Logs(chain, startBlock, tip)) &&
                   ranges == old(ranges) + [Range(startBlock, tip)]
              else phase == Live && ranges == old(ranges)
    {
      if startBlock <= tip {
        Fetch(tip, true);
      }
    }

    /** One round of the event loop: the next root gets the next index and is compared. */
    method DoRoot(l2: Option<Root>)
      requires Valid() && phase.Scanning? && phase.pending != []
      modifies this`phase, this`log, this`runLog, this`rCount, this`checkpoint, this`isOk, this`matched
      ensures Valid()
      ensures log == old(log) + [Line(old(rCount) + 1, old(phase.pending[0]))]
      ensures var vf := verifier(old(rCount) + 1);
              var same := old(phase.pending[0]).root == vf && (l2.Some? ==> l2.value == vf);
              isOk == (old(isOk) && same) && Current() == AfterRoot(first, old(Current()), !same)
    {
      hide Running, Good, Logged, Pos, Sorted;
      var entry := phase.pending[0];
      var differs := (l2.Some? && (entry.root != l2.value || l2.value != verifier(rCount + 1))) ||
                     entry.root != verifier(rCount + 1);
      ghost var m := Current();
      RootProcessed(chain, first, verifier, log, m, differs);
      rCount := rCount + 1;
      var line := Line(rCount, entry);
      log, runLog := log + [line], runLog + [line];
      if differs {
        isOk := false;
      } else {
        matched := Some(line);
      }
      if entry.block > checkpoint.block {
        checkpoint := Checkpoint(rCount, entry.block);
      }
      phase := phase.(pending := phase.pending[1..]);
      assert Current() == AfterRoot(first, m, differs);
    }

    method FinishBatch()
      requires Valid() && phase.Scanning? && phase.pending == []
      modifies this`phase, this`startBlock
      ensures Valid()
      ensures phase == Saving(old(phase.live)) && startBlock == old(phase.to) + 1
    {
      startBlock := phase.to + 1;
      phase := Saving(phase.live);
    }

    /** Opening the file for writing empties it; a process that dies here leaves no checkpoint. */
    method OpenCheckpoint()
      requires Valid() && phase.Saving?
      modifies this`phase, this`file
      ensures Valid()
      ensures if isOk && lastSaved != checkpoint.block then phase == Writing(old(phase.live)) && file == None
              else phase == (if old(phase.live) then Live else CatchUp) && file == old(file)
    {
      if isOk && lastSaved != checkpoint.block {
        file := None;
        phase := Writing(phase.live);
      } else {
        phase := if phase.live then Live else CatchUp;
      }
    }

    method WriteCheckpoint()
      requires Valid() && phase.Writing?
      modifies this`phase, this`file, this`lastSaved
      ensures Valid() && file == Some(checkpoint) && lastSaved == checkpoint.block
      ensures phase == if old(phase.live) then Live else CatchUp
    {
      file := Some(checkpoint);
      lastSaved := checkpoint.block;
      phase := if phase.live then Live else CatchUp;
    }

    /** The run has raised the alarm exactly if a root it compared differs from the verifier's. */
    ghost predicate AlarmExact()
      reads this
    {
      phase != Down ==> Exact(chain, first, verifier, Current())
    }

    /** Where the next run starts. */
    function Resume(): Checkpoint
      reads this
    {
      if file.Some? then file.value else Checkpoint(first, deployment)
    }

    /** One step of a scan: the next root, or the end of the batch. */
    method ScanOn(l2: Option<Root>)
      requires Valid() && phase.Scanning?
      modifies this
      ensures Valid() && old(log) <= log && unchanged(`base, `lastSaved, `file, `l1Tip)
      ensures l2 == None && old(AlarmExact()) ==> AlarmExact()
      ensures if old(phase.pending) == []
              then phase == Saving(old(phase.live)) && startBlock == old(phase.to) + 1 && unchanged(`checkpoint, `isOk)
              else phase == old(phase).(pending := old(phase.pending)[1..]) && unchanged(`startBlock)
      ensures checkpoint == old(checkpoint) || checkpoint.block > old(checkpoint).block
    {
      hide Running, Good, Logged, Sorted, Pos, AllMatch;
      if phase.pending == [] {
        FinishBatch();
      } else {
        ghost var m, before := Current(), log;
        DoRoot(l2);
        if l2 == None && Exact(chain, first, verifier, m) {
          ExactStep(chain, first, verifier, before, m, m.phase.pending[0].root != verifier(first + m.done));
        }
      }
    }

    /**
     One step of the process or a crash; what is in memory is then lost. If no L2 node is asked, the alarm
     stays exact.
     */
    method Advance(input: Input)
      requires Valid()
      modifies this
      ensures Valid() && old(log) <= log
      ensures input.Crash? ==> phase == Down && file == old(file) && log == old(log)
      ensures (input.Step? ==> input.l2 == None) && old(AlarmExact()) ==> AlarmExact()
      ensures old(phase) != Down ==> base == old(base)
      ensures input.Step? ==>
                match old(phase)
                case Down =>
                  phase == Loaded && checkpoint == old(Resume()) && base == lastSaved == checkpoint.block && isOk
                case Loaded =>
                  && phase == (if input.tip > base then CatchUp else Down) && unchanged(`checkpoint, `lastSaved, `isOk)
                  && (phase == CatchUp ==> l1Tip == input.tip && startBlock == base)
                case CatchUp =>
                  && unchanged(`checkpoint, `lastSaved, `isOk, `file, `l1Tip, `startBlock)
                  && if startBlock >= l1Tip then phase == Live
                     else phase.Scanning? && !phase.live && startBlock <= phase.to < l1Tip
                case Live =>
                  && unchanged(`checkpoint, `lastSaved, `isOk, `file, `startBlock)
                  && phase == (if startBlock > input.tip then Live
                               else Scanning(true, input.tip, Logs(chain, startBlock, input.tip)))
                case Scanning(live, to, pending) =>
                  && unchanged(`lastSaved, `file, `l1Tip)
                  && (checkpoint == old(checkpoint) || checkpoint.block > old(checkpoint).block)
                  && (if pending == []
                      then phase == Saving(live) && startBlock == to + 1 && unchanged(`checkpoint, `isOk)
                      else phase == Scanning(live, to, pending[1..]) && unchanged(`startBlock))
                case Saving(live) =>
                  && unchanged(`checkpoint, `lastSaved, `isOk, `l1Tip, `startBlock)
                  && (if isOk && lastSaved != checkpoint.block then phase == Writing(live) && file == None
                      else phase == (if live then Live else CatchUp) && file == old(file))
                case Writing(live) =>
                  && unchanged(`checkpoint, `isOk, `l1Tip, `startBlock) && file == Some(checkpoint)
                  && lastSaved == checkpoint.block && phase == (if live then Live else CatchUp)
    {
      hide Running, Good, Logged, Sorted, Pos, AllMatch;
      if input.Crash? {
        phase := Down;
        return;
      }
      match phase {
        case Down =>
          Load();
          ExactAtStart(chain, first, verifier, log, Current());
        case Loaded => Begin(input.tip);
        case CatchUp => NextBatch();
        case Live => NextLive(input.tip);
        case Scanning(_, _, _) => ScanOn(input.l2);
        case Saving(_) => OpenCheckpoint();
        case Writing(_) => WriteCheckpoint();
      }
    }

    /**
     Any number of runs, with any tips and crashes. No root below a saved checkpoint differs from the
     verifier's; every root ever compared had the index of an uninterrupted scan; and between
     batches this run has compared all roots in the blocks it passed, in contiguous ranges. If no L2 node
     is asked, it has raised the alarm exactly if one of those it compared differs.
     */
    method Run(inputs: seq<Input>)
      requires Valid()
      modifies this
      ensures Valid() && old(log) <= log
      ensures file.Some? ==> NoMismatchBelow(chain, first, verifier, file.value.block)
      ensures Logged(chain, first, log)
      ensures phase == CatchUp || phase == Live ==>
                && Contiguous(ranges, base, startBlock)
                && LoggedBetween(chain, first, log, base, startBlock)
                && (isOk ==> NoMismatchBelow(chain, first, verifier, startBlock))
      ensures old(AlarmExact()) && (forall i | i in inputs && i.Step? :: i.l2 == None) ==> AlarmExact()
    {
      for i := 0 to |inputs|
        invariant Valid() && old(log) <= log
        invariant old(AlarmExact()) && (forall i | i in inputs && i.Step? :: i.l2 == None) ==> AlarmExact()
      {
        hide Valid, AlarmExact;
        Advance(inputs[i]);
      }
      hide NoMismatchBelow, LoggedBetween, Logged, Good, Pos, Sorted, Running, Contiguous;
      if file.Some? {
        SavedIsSafe(chain, first, verifier, file.value);
      }
      if phase == CatchUp || phase == Live {
        PassedIsSafe(chain, first, verifier, log, Current());
      }
    }

    /** How much a run has to do in its phase before the next block range. */
    function ToDo(): nat
      reads this
    {
      match phase
      case Saving(_) => 4
      case Writing(_) => 3
      case CatchUp => 2
      case Scanning(_, _, _) => 1
      case _ => 0
    }

    /**
     A run that is left alone catches up with the tip: then it has logged every root below the tip from where
     it started, it has raised the alarm exactly if one of them differs from the verifier's, and without an
     alarm a checkpoint of the last root's block is saved.
     */
    method CatchUpWith(tip: nat)
      requires Valid() && phase == Down && tip > Resume().block
      modifies this
      ensures Valid() && phase == Live && startBlock == tip && base == old(Resume()).block && old(log) <= log
      ensures LoggedBetween(chain, first, log, base, tip)
      ensures isOk <==> AllMatch(chain, first, verifier, Pos(chain, base), Pos(chain, tip))
      ensures checkpoint.block == if Pos(chain, tip) > Pos(chain, base) then chain[Pos(chain, tip) - 1].block else base
      ensures isOk && checkpoint.block != base ==> file == Some(checkpoint)
    {
      hide Running, Logged, Good, Sorted, Pos, AllMatch, LoggedBetween;
      Advance(Step(tip, None));
      Advance(Step(tip, None));
      while phase != Live
        invariant Valid() && AlarmExact() && old(log) <= log && l1Tip == tip && startBlock <= tip
        invariant base == old(Resume()).block && lastSaved <= checkpoint.block
        invariant phase == CatchUp || phase == Live ==> isOk ==> lastSaved == checkpoint.block
        invariant !phase.Writing? && lastSaved == checkpoint.block != base ==> file == Some(checkpoint)
        invariant match phase
                  case Scanning(live, to, _) => !live && startBlock <= to < tip
                  case Saving(live) => !live
                  case Writing(live) => !live
                  case CatchUp => true
                  case Live => startBlock == tip
                  case _ => false
        decreases tip - startBlock, ToDo(), if phase.Scanning? then |phase.pending| else 0
      {
        Advance(Step(tip, None));
      }
      AtRest(chain, first, verifier, log, Current());
      PassedIsSafe(chain, first, verifier, log, Current());
    }
  }
}
