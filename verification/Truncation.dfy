/**
 How far the pending lists are cut when the pool is over its global limit
 (l2geth/core/tx_pool.go, truncatePending): water-filling, stated on plain maps.
 */
module Truncation {
  import opened Transactions
  import opened SortedMap
  import opened TxLists
  import opened PricedList
  import opened PoolState
  import opened PoolSteps
  import opened Sums

  function Len(lists: Lists, a: Address): nat {
    if a in lists then |lists[a].items| else 0
  }

  function LenOf(lists: Lists): Address -> int {
    (a: Address) => Len(lists, a)
  }

  /** The number of transactions on all lists. */
  ghost function Total(lists: Lists): int {
    Sum(lists.Keys, LenOf(lists))
  }

  /** Every non-local account cut down to its `level` lowest nonces. */
  function CapAll(lists: Lists, locals: set<Address>, level: nat): Lists {
    map a | a in lists :: if a in locals then lists[a] else lists[a].Cap(level)
  }

  ghost predicate AllKeyed(lists: Lists) {
    forall a | a in lists :: Keyed(lists[a].items)
  }

  lemma TotalSet(lists: Lists, a: Address, l: List)
    requires a in lists
    ensures Total(lists[a := l]) == Total(lists) - |lists[a].items| + |l.items|
  {
    var lists' := lists[a := l];
    assert lists'.Keys == lists.Keys;
    SumChange(lists.Keys, LenOf(lists), LenOf(lists'), a);
  }

  lemma TotalDrop(lists: Lists, a: Address)
    requires a in lists
    ensures Total(lists - {a}) == Total(lists) - |lists[a].items|
  {
    var lists' := lists - {a};
    assert lists'.Keys == lists.Keys - {a};
    SumTake(lists.Keys, LenOf(lists), a);
    SumSame(lists'.Keys, LenOf(lists), LenOf(lists'));
  }

  lemma LowestSize(items: Items, k: nat)
    requires Keyed(items)
    ensures |Lowest(items, k)| == if k < |items| then k else |items|
  {
    if |items| <= k {
      LowestAll(items, k);
    } else {
      var order := SomeListing(items);
      EnumeratesSize(order, items);
      ListingTake(order, items, k);
    }
  }

  /** Cutting twice is cutting once at the lower level. */
  lemma LowestLowest(items: Items, j: nat, k: nat)
    requires j <= k
    ensures Lowest(Lowest(items, k), j) == Lowest(items, j)
  {
    var low := Lowest(items, k);
    LowestDownClosed(items, k);
    forall n | n in low
      ensures NoncesBelow(low, n) == NoncesBelow(items, n)
    {
    }
  }

  lemma CapAllLen(lists: Lists, locals: set<Address>, level: nat, a: Address)
    requires AllKeyed(lists) && a in lists
    ensures Len(CapAll(lists, locals, level), a) ==
            if a in locals || |lists[a].items| <= level then |lists[a].items| else level
  {
    LowestSize(lists[a].items, level);
  }

  lemma CapAllMonotone(lists: Lists, locals: set<Address>, j: nat, k: nat)
    requires AllKeyed(lists) && j <= k
    ensures Total(CapAll(lists, locals, j)) <= Total(CapAll(lists, locals, k))
  {
    var lo, hi := CapAll(lists, locals, j), CapAll(lists, locals, k);
    assert lo.Keys == lists.Keys && hi.Keys == lists.Keys;
    forall a | a in lists.Keys
      ensures LenOf(lo)(a) <= LenOf(hi)(a)
    {
      CapAllLen(lists, locals, j, a);
      CapAllLen(lists, locals, k, a);
    }
    SumAtMost(lists.Keys, LenOf(lo), LenOf(hi));
  }

  /** A level no non-local list exceeds leaves everything as it is. */
  lemma CapAllIdle(lists: Lists, locals: set<Address>, level: nat)
    requires AllKeyed(lists)
    requires forall a | a in lists && a !in locals :: |lists[a].items| <= level
    ensures CapAll(lists, locals, level) == lists
  {
    forall a | a in lists && a !in locals
      ensures lists[a].Cap(level) == lists[a]
    {
      LowestAll(lists[a].items, level);
    }
  }

  /** The level at which cutting stops: the highest that fits, but never below the guaranteed slots. */
  ghost predicate WaterLevel(lists: Lists, locals: set<Address>, slots: nat, limit: nat, level: nat) {
    && slots <= level
    && (Total(CapAll(lists, locals, level)) <= limit || level == slots)
    && Total(CapAll(lists, locals, level + 1)) > limit
  }

  lemma WaterLevelUnique(lists: Lists, locals: set<Address>, slots: nat, limit: nat, j: nat, k: nat)
    requires AllKeyed(lists)
    requires WaterLevel(lists, locals, slots, limit, j) && WaterLevel(lists, locals, slots, limit, k)
    ensures j == k
  {
    NoLowerLevel(lists, locals, slots, limit, j, k);
    NoLowerLevel(lists, locals, slots, limit, k, j);
  }

  lemma NoLowerLevel(lists: Lists, locals: set<Address>, slots: nat, limit: nat, j: nat, k: nat)
    requires AllKeyed(lists) && slots <= j
    requires Total(CapAll(lists, locals, k)) <= limit || k == slots
    requires Total(CapAll(lists, locals, j + 1)) > limit
    ensures j >= k
  {
    if j < k {
      CapAllMonotone(lists, locals, j + 1, k);
    }
  }

  ghost function Offenders(lists: Lists, locals: set<Address>, level: nat): set<Address> {
    set a | a in lists && a !in locals && |lists[a].items| > level
  }

  /** One level costs exactly one transaction per account above it, so the cut undershoots by less than that. */
  lemma Undershoot(lists: Lists, locals: set<Address>, slots: nat, limit: nat, level: nat)
    requires AllKeyed(lists)
    ensures Total(CapAll(lists, locals, level + 1)) ==
            Total(CapAll(lists, locals, level)) + |Offenders(lists, locals, level)|
    ensures WaterLevel(lists, locals, slots, limit, level) ==>
            Total(CapAll(lists, locals, level)) > limit - |Offenders(lists, locals, level)|
  {
    var lo, hi := CapAll(lists, locals, level), CapAll(lists, locals, level + 1);
    assert lo.Keys == lists.Keys && hi.Keys == lists.Keys;
    var over := Offenders(lists, locals, level);
    forall a | a in lists.Keys
      ensures LenOf(hi)(a) == LenOf(lo)(a) + (if a in over then 1 else 0)
    {
      CapAllLen(lists, locals, level, a);
      CapAllLen(lists, locals, level + 1, a);
    }
    SumPlusCount(lists.Keys, LenOf(lo), LenOf(hi), over);
  }

  lemma {:induction false} SumPlusCount(s: set<Address>, f: Address -> int, g: Address -> int, over: set<Address>)
    requires over <= s
    requires forall a | a in s :: g(a) == f(a) + (if a in over then 1 else 0)
    ensures Sum(s, g) == Sum(s, f) + |over|
    decreases |s|
  {
    if s != {} {
      var a :| a in s;
      SumTake(s, f, a);
      SumTake(s, g, a);
      SumPlusCount(s - {a}, f, g, over - {a});
    }
  }

  /** A round in progress: the accounts of `done` are one level lower than the others. */
  function RoundState(lists: Lists, locals: set<Address>, level: nat, done: set<Address>): Lists {
    map a | a in lists ::
      if a in locals then lists[a] else if a in done && 0 < level then lists[a].Cap(level - 1) else lists[a].Cap(level)
  }

  lemma RoundDone(lists: Lists, locals: set<Address>, level: nat, done: set<Address>)
    requires AllKeyed(lists) && 0 < level
    requires forall a | a in lists && a !in locals && a !in done :: |lists[a].items| < level
    ensures RoundState(lists, locals, level, done) == CapAll(lists, locals, level - 1)
  {
    hide Lowest;
    forall a | a in lists && a !in locals && a !in done
      ensures lists[a].Cap(level) == lists[a].Cap(level - 1)
    {
      LowestAll(lists[a].items, level);
      LowestAll(lists[a].items, level - 1);
    }
  }

  // ---------- the rounds of truncatePending ----------

  lemma OneLeft(all: set<Uint64>, part: set<Uint64>) returns (top: Uint64)
    requires part <= all && |part| == |all| - 1
    ensures all - part == {top}
  {
    assert |all - part| == |all| - |part|;
    top :| top in all - part;
    assert |all - part - {top}| == 0;
    assert all - part - {top} == {};
  }

  lemma TopIsHighest(items: Items, top: Uint64)
    requires top in items && |NoncesBelow(items, top)| >= |items| - 1
    ensures forall n | n in items :: n <= top
  {
    var below := NoncesBelow(items, top);
    if n :| n in items && n > top {
      assert top !in below && |below + {top}| == |below| + 1;
      assert n !in below + {top};
      ProperSubsetSize(below + {top}, items.Keys);
    }
  }

  /** Capping a list one below its size drops one transaction. */
  lemma OneCapped(l: List, caps: set<Tx>) returns (top: Uint64)
    requires Keyed(l.items) && |l.items| >= 1
    requires caps == Txs(l.items - Lowest(l.items, |l.items| - 1).Keys)
    ensures top in l.items && top !in l.Cap(|l.items| - 1).items && caps == {l.items[top]} && l.items[top].nonce == top
    ensures l.Cap(|l.items| - 1).items.Keys == l.items.Keys - {top} && forall n | n in l.items :: n <= top
  {
    var low := Lowest(l.items, |l.items| - 1);
    LowestSize(l.items, |l.items| - 1);
    top := OneLeft(l.items.Keys, low.Keys);
    var rest := l.items - low.Keys;
    assert rest.Keys == {top};
    TxsHold(rest);
    LowestMembers(l.items, |l.items| - 1);
    TopIsHighest(l.items, top);
  }

  lemma CapPendingStage(p: Lists, q: Lists, all: Lookup, a: Address, k: nat, caps: set<Tx>)
    requires Inv(p, q, all, {}) && a in p && 1 <= k == |p[a].items| - 1
    requires caps == Txs(p[a].items - Lowest(p[a].items, k).Keys)
    ensures Inv(p[a := p[a].Cap(k)], q, all - HashSet(caps) - HashSet({}), {})
    ensures forall t | t in caps :: Live(all, t)
    ensures forall t :: Live(all - HashSet(caps), t) ==> Live(all, t)
    ensures Total(p[a := p[a].Cap(k)]) == Total(p) - 1
  {
    LowestSize(p[a].items, k);
    CapShrinks(p[a], a, true, k);
    TakePending(p, q, all, a, p[a].Cap(k), caps, {});
    ShrinkIn(p, true, a, p[a].Cap(k), caps, {});
    DropLive(all, caps);
    NothingForgotten(all - HashSet(caps));
    TotalSet(p, a, p[a].Cap(k));
  }

  lemma RoundStart(start: Lists, locals: set<Address>, level: nat)
    ensures RoundState(start, locals, level, {}) == CapAll(start, locals, level)
  {
  }

  lemma RoundStep(start: Lists, locals: set<Address>, level: nat, done: set<Address>, a: Address)
    requires AllKeyed(start) && level >= 2 && a in start && a !in locals && a !in done && |start[a].items| >= level
    ensures var p := RoundState(start, locals, level, done);
            && a in p && |p[a].items| == level
            && p[a := p[a].Cap(level - 1)] == RoundState(start, locals, level, done + {a})
  {
    LowestSize(start[a].items, level);
    LowestLowest(start[a].items, level - 1, level);
  }

  lemma {:induction false} SumZero(s: set<Address>)
    ensures Sum(s, a => 0) == 0
    decreases |s|
  {
    if s != {} {
      var a :| a in s;
      SumTake(s, a => 0, a);
      SumZero(s - {a});
    }
  }

  lemma TotalNonNegative(lists: Lists)
    ensures Total(lists) >= 0
  {
    SumAtMost(lists.Keys, a => 0, LenOf(lists));
    SumZero(lists.Keys);
  }

  lemma CapAllKeys(start: Lists, locals: set<Address>, level: nat)
    ensures CapAll(start, locals, level).Keys == start.Keys
  {
  }

  lemma IdleLevel(start: Lists, locals: set<Address>, level: nat)
    requires AllKeyed(start)
    requires forall a | a in start && a !in locals :: |start[a].items| <= level
    ensures CapAll(start, locals, level) == start && CapAll(start, locals, level + 1) == start
  {
    CapAllIdle(start, locals, level);
    CapAllIdle(start, locals, level + 1);
  }

  lemma ListsKeyed(p: Lists, q: Lists, all: Lookup)
    requires Inv(p, q, all, {})
    ensures AllKeyed(p) && AllKeyed(q)
  {
  }

  /** The accounts of `group` all reach `level`; no other non-local account exceeds `floor`. */
  ghost predicate Group(start: Lists, locals: set<Address>, group: seq<Address>, floor: nat, level: nat) {
    && (forall i, j :: 0 <= i < j < |group| ==> group[i] != group[j])
    && (forall a | a in group :: a in start && a !in locals && |start[a].items| >= level)
    && (forall a | a in start && a !in locals && a !in group :: |start[a].items| <= floor)
  }

  /** While a group is above its floor, a round over it lowers exactly its members. */
  lemma GroupRound(start: Lists, locals: set<Address>, group: seq<Address>, floor: nat, level: nat)
    requires Group(start, locals, group, floor, level) && floor < level
    ensures forall i, j :: 0 <= i < j < |group| ==> group[i] != group[j]
    ensures forall a | a in group :: a in start && a !in locals && |start[a].items| >= level
    ensures forall a | a in start && a !in locals && a !in group :: |start[a].items| < level
    ensures Group(start, locals, group, floor, level - 1)
  {
  }

  lemma GroupLast(start: Lists, locals: set<Address>, group: seq<Address>, floor: nat, level: nat)
    requires AllKeyed(start) && Group(start, locals, group, floor, level) && group != []
    ensures group[|group| - 1] in CapAll(start, locals, level)
    ensures |CapAll(start, locals, level)[group[|group| - 1]].items| == level
  {
    var last := group[|group| - 1];
    assert last in group;
    CapAllLen(start, locals, level, last);
  }

  lemma NoOffenders(start: Lists, locals: set<Address>, floor: nat, level: nat)
    requires Group(start, locals, [], floor, level)
    ensures forall a | a in start && a !in locals :: |start[a].items| <= floor
  {
  }

  /** The lists are filled exactly to `level`, and one level more would not fit. */
  ghost predicate Filled(start: Lists, locals: set<Address>, slots: nat, limit: nat, level: nat, lists: Lists) {
    lists == CapAll(start, locals, level) && slots <= level && Total(CapAll(start, locals, level + 1)) > limit
  }

  /** Accounts over their slots are either offenders already or still in the spam queue, largest first. */
  ghost predicate Spam(start: Lists, locals: set<Address>, slots: nat, offenders: seq<Address>,
                       spammers: map<Address, nat>) {
    && (forall i, j :: 0 <= i < j < |offenders| ==> offenders[i] != offenders[j])
    && (forall a | a in offenders :: a in start && a !in locals && a !in spammers && |start[a].items| > slots)
    && (forall a | a in spammers :: a in start && a !in locals && spammers[a] == |start[a].items| > slots)
    && (forall a | a in start && a !in locals && a !in offenders && a !in spammers :: |start[a].items| <= slots)
  }

  /** The remote accounts over their slots, with their lengths. */
  function Spammers(lists: Lists, locals: set<Address>, slots: nat): map<Address, nat> {
    (map a | a in lists :: |lists[a].items|) - (set a | a in lists && (a in locals || |lists[a].items| <= slots))
  }

  lemma SpammersSpam(lists: Lists, locals: set<Address>, slots: nat)
    ensures Spam(lists, locals, slots, [], Spammers(lists, locals, slots))
  {
  }

  predicate Largest(m: map<Address, nat>, a: Address) {
    a in m && forall b | b in m :: m[b] <= m[a]
  }

  lemma {:induction false} LargestExists(m: map<Address, nat>) returns (top: Address)
    requires m != map[]
    ensures Largest(m, top)
    decreases |m|
  {
    var a :| a in m;
    var rest := m - {a};
    assert m.Keys == rest.Keys + {a};
    top := a;
    if rest != map[] {
      var c := LargestExists(rest);
      top := if m[a] < m[c] then c else a;
      forall b | b in m
        ensures m[b] <= m[top]
      {
        assert b == a || b in rest;
      }
    } else {
      assert forall b | b in m :: b == a;
    }
  }

  lemma SpamStep(start: Lists, locals: set<Address>, slots: nat, offenders: seq<Address>, spammers: map<Address, nat>,
                 o: Address)
    requires Spam(start, locals, slots, offenders, spammers) && Largest(spammers, o)
    ensures Spam(start, locals, slots, offenders + [o], spammers - {o})
    ensures offenders == [] ==> forall a | a in start && a !in locals :: |start[a].items| <= |start[o].items|
  {
  }

  lemma SpamGroup(start: Lists, locals: set<Address>, slots: nat, offenders: seq<Address>, spammers: map<Address, nat>,
                  o: Address, level: nat)
    requires Spam(start, locals, slots, offenders, spammers) && Largest(spammers, o)
    requires forall a | a in offenders :: Len(start, a) >= level
    ensures Group(start, locals, offenders, |start[o].items|, level)
  {
  }

  lemma SpamLast(start: Lists, locals: set<Address>, slots: nat, offenders: seq<Address>, spammers: map<Address, nat>,
                 level: nat)
    requires Spam(start, locals, slots, offenders, spammers) && spammers == map[]
    requires forall a | a in offenders :: Len(start, a) >= level
    ensures Group(start, locals, offenders, slots, level)
  {
  }

  /** Nothing is cut before the first offender; from then on the lists are filled to the level. */
  ghost predicate Progress(start: Lists, locals: set<Address>, config: Config, offenders: seq<Address>,
                           spammers: map<Address, nat>, level: nat, lists: Lists) {
    if offenders == [] then lists == start
    else
      && Filled(start, locals, config.accountSlots, config.globalSlots, level, lists)
      && forall b | b in spammers :: spammers[b] <= level
  }

  lemma NoProgress(start: Lists, locals: set<Address>, config: Config, spammers: map<Address, nat>, level: nat)
    ensures Progress(start, locals, config, [], spammers, level, start)
  {
  }

  lemma TakeFacts(start: Lists, locals: set<Address>, config: Config, offenders: seq<Address>,
                  spammers: map<Address, nat>, o: Address, top: nat, lists: Lists)
    requires Spam(start, locals, config.accountSlots, offenders, spammers) && Largest(spammers, o)
    requires Progress(start, locals, config, offenders, spammers, top, lists)
    requires forall a | a in offenders :: Len(start, a) >= top
    ensures o in start && o !in locals && config.accountSlots < |start[o].items|
    ensures offenders != [] ==>
              && Group(start, locals, offenders, |start[o].items|, top) && |start[o].items| <= top
              && Filled(start, locals, config.accountSlots, config.globalSlots, top, lists)
    ensures offenders == [] ==>
              lists == start && forall a | a in start && a !in locals :: |start[a].items| <= |start[o].items|
  {
    SpamGroup(start, locals, config.accountSlots, offenders, spammers, o, top);
    SpamStep(start, locals, config.accountSlots, offenders, spammers, o);
  }

  lemma ProgressStep(start: Lists, locals: set<Address>, config: Config, offenders: seq<Address>,
                     spammers: map<Address, nat>, o: Address, level: nat, lists: Lists)
    requires Spam(start, locals, config.accountSlots, offenders, spammers) && Largest(spammers, o)
    requires Filled(start, locals, config.accountSlots, config.globalSlots, level, lists) && Len(start, o) <= level
    ensures Progress(start, locals, config, offenders + [o], spammers - {o}, level, lists)
  {
  }

  lemma ProgressMeaning(start: Lists, locals: set<Address>, config: Config, offenders: seq<Address>,
                        spammers: map<Address, nat>, level: nat, lists: Lists)
    requires Progress(start, locals, config, offenders, spammers, level, lists)
    ensures offenders != [] ==> Filled(start, locals, config.accountSlots, config.globalSlots, level, lists)
    ensures offenders == [] ==> lists == start
  {
  }

  lemma OverLimit(items: Items, limit: nat, d: Tx)
    requires Keyed(items) && Holds(items, d) && !Holds(Lowest(items, limit), d)
    ensures |Lowest(items, limit)| == limit
  {
    LowestSize(items, limit);
    if |items| <= limit {
      LowestAll(items, limit);
    }
  }

  /** Cutting a pending list leaves its first nonce, so what could run still can. */
  lemma RunnableCap(l: List, nonce: Uint64, balance: int, maxGas: Uint64, k: nat)
    requires Runnable(l, nonce, balance, maxGas) && k >= 1
    ensures Runnable(l.Cap(k), nonce, balance, maxGas)
  {
    hide TooDear;
    assert NoncesBelow(l.items, nonce) == {};
  }

  /** Uncut within the limit, and otherwise cut to the water level. */
  ghost predicate PendingCut(p: Lists, locals: set<Address>, config: Config, p': Lists) {
    if Total(p) <= config.globalSlots then p' == p
    else exists level: nat :: WaterLevel(p, locals, config.accountSlots, config.globalSlots, level) &&
                              p' == CapAll(p, locals, level)
  }

  /** Uncut, or cut to one level that leaves every account its guaranteed slots. */
  ghost predicate Levelled(p: Lists, locals: set<Address>, slots: nat, p': Lists) {
    p' == p || exists level: nat :: slots <= level && p' == CapAll(p, locals, level)
  }

  lemma StillRunnable(p: Lists, locals: set<Address>, slots: nat, p': Lists, a: Address, nonce: Uint64, balance: int,
                      maxGas: Uint64)
    requires Levelled(p, locals, slots, p') && slots >= 1 && a in p'
    ensures a in p && (Runnable(p[a], nonce, balance, maxGas) ==> Runnable(p'[a], nonce, balance, maxGas))
  {
    hide Runnable;
    if p' != p && Runnable(p[a], nonce, balance, maxGas) {
      var level: nat :| slots <= level && p' == CapAll(p, locals, level);
      RunnableCap(p[a], nonce, balance, maxGas, level);
    }
  }

  lemma CutKeys(p: Lists, locals: set<Address>, config: Config, p': Lists)
    requires PendingCut(p, locals, config, p')
    ensures p'.Keys == p.Keys
  {
    if Total(p) > config.globalSlots {
      var level: nat :| WaterLevel(p, locals, config.accountSlots, config.globalSlots, level) &&
                        p' == CapAll(p, locals, level);
      CapAllKeys(p, locals, level);
    }
  }

  lemma LimitReached(before: Lists, locals: set<Address>, config: Config, after: Lists)
    requires AllKeyed(before)
    requires PendingCut(before, locals, config, after)
    ensures Total(after) <= config.globalSlots ||
            forall a | a in after && a !in locals :: |after[a].items| <= config.accountSlots
    ensures Levelled(before, locals, config.accountSlots, after)
  {
    if Total(before) > config.globalSlots {
      var level: nat :| WaterLevel(before, locals, config.accountSlots, config.globalSlots, level) &&
                        after == CapAll(before, locals, level);
      if level == config.accountSlots {
        forall a | a in after && a !in locals
          ensures |after[a].items| <= level
        {
          CapAllLen(before, locals, level, a);
        }
      }
    }
  }
}
