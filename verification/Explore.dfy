/** When each distance from self is next explored: the schedule's due times and what asking it for the
    next one does. */
module ExploreSpec {
  import opened Clock
  import opened Options
  import opened HeapOrder

  datatype Config = Config(maxCpl: nat, start: Instant, interval: nat, multiplier: real, jitter: real)
  {
    predicate Valid() {
      maxCpl >= 1 && interval >= 1 && multiplier >= 1.0 && 0.0 <= jitter <= 0.05
    }
  }

  datatype CplDue = CplDue(cpl: nat, due: Instant)

  /** Earlier first, and among those due together the lower cpl. */
  predicate EntryLess(a: CplDue, b: CplDue) {
    if a.due == b.due then a.cpl < b.cpl else a.due < b.due
  }

  lemma EntryLessOrders()
    ensures StrictWeakOrder(EntryLess)
  {
  }

  /** The share of an interval between two neighbours of the first round. */
  function Step(cfg: Config): nat {
    cfg.interval / (cfg.maxCpl + 1)
  }

  function FirstDue(cfg: Config, cpl: nat): Instant
    requires cpl <= cfg.maxCpl
  {
    cfg.start + Step(cfg) * (cfg.maxCpl - cpl + 1)
  }

  function Initial(cfg: Config): map<nat, Instant> {
    map c: nat | c <= cfg.maxCpl :: FirstDue(cfg, c)
  }

  /** A cpl's own interval before jitter. */
  function BaseInterval(cfg: Config, cpl: nat): real
    requires cpl <= cfg.maxCpl
  {
    cfg.interval as real + cfg.interval as real * (cfg.maxCpl - cpl) as real * cfg.multiplier
  }

  /** The time to the next exploration of a cpl, for a random number drawn from [0, 1). */
  function CplInterval(cfg: Config, cpl: nat, rand: real): (i: nat)
    requires cfg.Valid() && cpl <= cfg.maxCpl && 0.0 <= rand < 1.0
    ensures i >= cfg.interval && i >= BaseInterval(cfg, cpl).Floor
  {
    AtLeastBase(cfg, cpl, rand);
    (BaseInterval(cfg, cpl) + cfg.interval as real * cfg.jitter * rand).Floor
  }

  lemma Product(x: real, y: real)
    requires x >= 0.0 && y >= 0.0
    ensures x * y >= 0.0
  {
  }

  lemma AtLeastBase(cfg: Config, cpl: nat, rand: real)
    requires cfg.Valid() && cpl <= cfg.maxCpl && 0.0 <= rand < 1.0
    ensures BaseInterval(cfg, cpl) >= cfg.interval as real
    ensures BaseInterval(cfg, cpl) + cfg.interval as real * cfg.jitter * rand >= BaseInterval(cfg, cpl)
  {
    Product(cfg.interval as real, (cfg.maxCpl - cpl) as real);
    Product(cfg.interval as real * (cfg.maxCpl - cpl) as real, cfg.multiplier);
    Product(cfg.interval as real, cfg.jitter);
    Product(cfg.interval as real * cfg.jitter, rand);
  }

  /** c is due no later than any other cpl, and is the lowest of those due with it. */
  ghost predicate Head(dues: map<nat, Instant>, c: nat) {
    c in dues && forall d :: d in dues ==> !EntryLess(CplDue(d, dues[d]), CplDue(c, dues[c]))
  }

  /** Asking for the next cpl at time ts, when c comes first: none before c is due, and otherwise c, which is
      put off by its own interval. */
  function Next(cfg: Config, dues: map<nat, Instant>, ts: Instant, rand: real, c: nat): (map<nat, Instant>, Option<nat>)
    requires cfg.Valid() && c in dues && c <= cfg.maxCpl && 0.0 <= rand < 1.0
  {
    if dues[c] > ts then (dues, None) else (dues[c := ts + CplInterval(cfg, c, rand)], Some(c))
  }

  // ---------- Runs ----------

  /** A call and what it gave. */
  datatype Call = Call(ts: Instant, rand: real, before: map<nat, Instant>, after: map<nat, Instant>, result: Option<nat>)

  ghost predicate IsCall(cfg: Config, c: Call) {
    cfg.Valid() && 0.0 <= c.rand < 1.0 &&
    exists h: nat :: Head(c.before, h) && h <= cfg.maxCpl && (c.after, c.result) == Next(cfg, c.before, c.ts, c.rand, h)
  }

  /** Calls at any times, each finding the schedule as the one before left it. */
  ghost predicate IsRun(cfg: Config, run: seq<Call>) {
    && (forall i :: 0 <= i < |run| ==> IsCall(cfg, run[i]))
    && (|run| > 0 ==> run[0].before == Initial(cfg))
    && (forall i :: 0 < i < |run| ==> run[i].before == run[i - 1].after)
  }

  /** The cpls a run returned, in order. */
  function Returned(run: seq<Call>): seq<nat> {
    if |run| == 0 then [] else
    Returned(run[..|run| - 1]) + (if run[|run| - 1].result.Some? then [run[|run| - 1].result.value] else [])
  }

  /** The due times a run leads to. */
  function After(cfg: Config, run: seq<Call>): map<nat, Instant> {
    if |run| == 0 then Initial(cfg) else run[|run| - 1].after
  }

  // ---------- The first round ----------

  /** A cpl's turn in the first round: highest first, or lowest first when the interval is too short to
      keep their due times apart. */
  function Turn(cfg: Config, cpl: nat): int {
    if Step(cfg) > 0 then cfg.maxCpl - cpl else cpl
  }

  /** After k returns: the cpls whose turn is still to come are due when they first were, and the others
      later than any of them. */
  ghost predicate InFirstRound(cfg: Config, dues: map<nat, Instant>, k: nat) {
    && (forall c: nat :: c in dues <==> c <= cfg.maxCpl)
    && (forall c :: c in dues && Turn(cfg, c) >= k ==> dues[c] == FirstDue(cfg, c))
    && (forall c :: c in dues && Turn(cfg, c) < k ==> dues[c] > cfg.start + Step(cfg) * (cfg.maxCpl + 1))
  }

  lemma StepsFit(cfg: Config)
    requires cfg.Valid()
    ensures Step(cfg) * (cfg.maxCpl + 1) <= cfg.interval
  {
  }

  lemma Scaled(s: nat, i: nat, j: nat)
    requires i <= j
    ensures s * i <= s * j
    ensures s > 0 && i < j ==> s * i < s * j
  {
  }

  /** The cpl that comes first is the one whose turn it is. */
  lemma HeadHasTurn(cfg: Config, dues: map<nat, Instant>, k: nat, h: nat)
    requires cfg.Valid() && InFirstRound(cfg, dues, k) && k <= cfg.maxCpl && Head(dues, h)
    ensures Turn(cfg, h) == k
  {
    var c: nat := if Step(cfg) > 0 then cfg.maxCpl - k else k;
    assert Turn(cfg, c) == k && c in dues;
    assert !EntryLess(CplDue(c, dues[c]), CplDue(h, dues[h]));
    Scaled(Step(cfg), cfg.maxCpl - c + 1, cfg.maxCpl + 1);
    assert Turn(cfg, h) >= k;
    if Turn(cfg, h) > k {
      if Step(cfg) > 0 {
        Scaled(Step(cfg), cfg.maxCpl - c + 1, cfg.maxCpl - h + 1);
      }
    }
  }

  lemma CallInFirstRound(cfg: Config, c: Call, k: nat)
    requires IsCall(cfg, c) && InFirstRound(cfg, c.before, k) && k <= cfg.maxCpl
    ensures c.result.None? ==> InFirstRound(cfg, c.after, k)
    ensures c.result.Some? ==> Turn(cfg, c.result.value) == k && c.result.value <= cfg.maxCpl && InFirstRound(cfg, c.after, k + 1)
  {
    var h: nat :| Head(c.before, h) && h <= cfg.maxCpl && (c.after, c.result) == Next(cfg, c.before, c.ts, c.rand, h);
    hide InFirstRound, CplInterval, Turn;
    HeadHasTurn(cfg, c.before, k, h);
    if c.before[h] <= c.ts {
      AfterFirstRound(cfg, c.before, k, h, c.ts, CplInterval(cfg, h, c.rand));
    }
    hide Head;
  }

  /** A cpl returned in its turn is put off until after the first round. */
  lemma AfterFirstRound(cfg: Config, dues: map<nat, Instant>, k: nat, h: nat, ts: Instant, wait: nat)
    requires cfg.Valid() && InFirstRound(cfg, dues, k) && h <= cfg.maxCpl && Turn(cfg, h) == k && h in dues && dues[h] <= ts
    requires wait >= cfg.interval
    ensures InFirstRound(cfg, dues[h := ts + wait], k + 1)
  {
    StepsFit(cfg);
    Scaled(Step(cfg), 1, cfg.maxCpl - h + 1);
    assert FirstDue(cfg, h) >= cfg.start + Step(cfg);
    assert ts + wait > cfg.start + Step(cfg) * (cfg.maxCpl + 1);
    hide FirstDue, Step;
  }

  lemma NothingDue(cfg: Config, c: Call)
    requires IsCall(cfg, c)
    ensures c.result.None? ==> c.after == c.before
  {
  }

  lemma InitialRound(cfg: Config)
    requires cfg.Valid()
    ensures InFirstRound(cfg, Initial(cfg), 0)
  {
  }

  /** Until every cpl has been returned once, each is returned in its turn. */
  lemma {:induction false} RunInFirstRound(cfg: Config, run: seq<Call>)
    requires cfg.Valid() && IsRun(cfg, run)
    ensures var r := Returned(run);
      && (forall i :: 0 <= i < |r| && i <= cfg.maxCpl ==> r[i] <= cfg.maxCpl && Turn(cfg, r[i]) == i)
      && (|r| <= cfg.maxCpl + 1 ==> InFirstRound(cfg, After(cfg, run), |r|))
  {
    hide InFirstRound, IsCall, Initial;
    if |run| == 0 {
      InitialRound(cfg);
    } else {
      var init, c := run[..|run| - 1], run[|run| - 1];
      RunInFirstRound(cfg, init);
      assert c.before == After(cfg, init);
      if |Returned(init)| <= cfg.maxCpl {
        CallInFirstRound(cfg, c, |Returned(init)|);
      } else {
        NothingDue(cfg, c);
      }
    }
  }

  /** The first maxCpl + 1 cpls returned, at whatever times the calls are made, are every cpl once: from
      the highest down if the interval has a tick for each of them, and otherwise from the lowest up. */
  lemma FirstRoundOrder(cfg: Config, run: seq<Call>, i: nat)
    requires cfg.Valid() && IsRun(cfg, run) && i < |Returned(run)| && i <= cfg.maxCpl
    ensures Returned(run)[i] == if cfg.interval >= cfg.maxCpl + 1 then cfg.maxCpl - i else i
  {
    RunInFirstRound(cfg, run);
    Quotient(cfg.interval, cfg.maxCpl + 1);
  }

  lemma Quotient(a: nat, b: nat)
    requires b > 0
    ensures a / b > 0 <==> a >= b
  {
    if a >= b {
      assert a / b >= 1;
    }
  }

  // ---------- Spacing ----------

  /** Every cpl is due no earlier than its own interval after it was last returned, at time last[c]. */
  ghost predicate SpacedFrom(cfg: Config, dues: map<nat, Instant>, last: map<nat, Instant>) {
    forall c :: c in last ==> c in dues && c <= cfg.maxCpl && dues[c] >= last[c] + BaseInterval(cfg, c).Floor
  }

  /** When each cpl was last returned. */
  function LastAt(run: seq<Call>): map<nat, Instant> {
    if |run| == 0 then map[] else
    var c := run[|run| - 1];
    if c.result.Some? then LastAt(run[..|run| - 1])[c.result.value := c.ts] else LastAt(run[..|run| - 1])
  }

  lemma {:induction false} RunSpaced(cfg: Config, run: seq<Call>)
    requires cfg.Valid() && IsRun(cfg, run)
    ensures SpacedFrom(cfg, After(cfg, run), LastAt(run))
  {
    hide BaseInterval;
    if |run| > 0 {
      var init, c := run[..|run| - 1], run[|run| - 1];
      RunSpaced(cfg, init);
      assert c.before == After(cfg, init);
      assert IsCall(cfg, c);
    }
  }

  /** No cpl is returned again before its own interval has passed since the last time. */
  lemma ReturnsSpaced(cfg: Config, run: seq<Call>)
    requires cfg.Valid() && IsRun(cfg, run) && |run| > 0 && run[|run| - 1].result.Some?
    ensures var c := run[|run| - 1];
      var last := LastAt(run[..|run| - 1]);
      && c.result.value <= cfg.maxCpl
      && (c.result.value in last ==>
            c.ts >= last[c.result.value] + (cfg.interval as real * (1.0 + (cfg.maxCpl - c.result.value) as real * cfg.multiplier)).Floor)
  {
    hide *;
    SpacedByBase(cfg, run);
    Factored(cfg, run[|run| - 1].result.value);
  }

  lemma SpacedByBase(cfg: Config, run: seq<Call>)
    requires cfg.Valid() && IsRun(cfg, run) && |run| > 0 && run[|run| - 1].result.Some?
    ensures var c := run[|run| - 1];
      var last := LastAt(run[..|run| - 1]);
      && c.result.value <= cfg.maxCpl
      && (c.result.value in last ==> c.ts >= last[c.result.value] + BaseInterval(cfg, c.result.value).Floor)
  {
    hide BaseInterval;
    var init, c := run[..|run| - 1], run[|run| - 1];
    RunSpaced(cfg, init);
    assert c.before == After(cfg, init);
    assert IsCall(cfg, c);
  }

  lemma Factored(cfg: Config, cpl: nat)
    ensures cpl <= cfg.maxCpl ==> BaseInterval(cfg, cpl) == cfg.interval as real * (1.0 + (cfg.maxCpl - cpl) as real * cfg.multiplier)
  {
    var n, d, m := cfg.interval as real, (cfg.maxCpl - cpl) as real, cfg.multiplier;
    assert n * (1.0 + d * m) == n + n * (d * m);
    assert n * (d * m) == n * d * m;
  }

  /** One call returns the cpl due first, the lowest of those due together, once it is due, and puts it and no other
      off, by its own interval and jitter. */
  lemma CallExactly(cfg: Config, c: Call)
    requires IsCall(cfg, c)
    ensures c.result.None? <==> forall d :: d in c.before ==> c.before[d] > c.ts
    ensures c.result.None? ==> c.after == c.before
    ensures c.result.Some? ==> PutsOff(cfg, c.before, c.ts, c.result.value, c.after)
  {
    var h: nat :| Head(c.before, h) && h <= cfg.maxCpl && (c.after, c.result) == Next(cfg, c.before, c.ts, c.rand, h);
    hide PutsOff, BaseInterval, CplInterval, Head;
    HeadLeast(c.before, h);
    WaitBounds(cfg, h, c.rand);
    PutOff(cfg, c.before, c.ts, h, CplInterval(cfg, h, c.rand));
  }

  /** The cpl is due by ts and no later than any other, and lower than those due with it; it is put off by
      interval * (1 + (maxCpl - cpl) * multiplier), rounded down, or up to interval * jitter more; no other is. */
  ghost predicate PutsOff(cfg: Config, before: map<nat, Instant>, ts: Instant, cpl: nat, after: map<nat, Instant>) {
    && cpl in before && cpl <= cfg.maxCpl && before[cpl] <= ts
    && (forall d :: d in before ==> before[cpl] < before[d] || (before[cpl] == before[d] && cpl <= d))
    && (forall d :: d in after <==> d in before) && (forall d :: d in before && d != cpl ==> after[d] == before[d])
    && var base, wait := cfg.interval as real * (1.0 + (cfg.maxCpl - cpl) as real * cfg.multiplier), after[cpl] - ts;
       base.Floor <= wait && wait as real <= base + cfg.interval as real * cfg.jitter
  }

  lemma PutOff(cfg: Config, before: map<nat, Instant>, ts: Instant, cpl: nat, wait: nat)
    requires cpl in before && cpl <= cfg.maxCpl
    requires forall d :: d in before ==> before[cpl] < before[d] || (before[cpl] == before[d] && cpl <= d)
    requires var base := cfg.interval as real * (1.0 + (cfg.maxCpl - cpl) as real * cfg.multiplier);
      base.Floor <= wait && wait as real <= base + cfg.interval as real * cfg.jitter
    ensures before[cpl] <= ts ==> PutsOff(cfg, before, ts, cpl, before[cpl := ts + wait])
  {
  }

  lemma HeadLeast(dues: map<nat, Instant>, h: nat)
    requires Head(dues, h)
    ensures h in dues && forall d :: d in dues ==> dues[h] < dues[d] || (dues[h] == dues[d] && h <= d)
  {
  }

  lemma WaitBounds(cfg: Config, cpl: nat, rand: real)
    requires cfg.Valid() && cpl <= cfg.maxCpl && 0.0 <= rand < 1.0
    ensures var base, wait := cfg.interval as real * (1.0 + (cfg.maxCpl - cpl) as real * cfg.multiplier), CplInterval(cfg, cpl, rand);
      base.Floor <= wait && wait as real <= base + cfg.interval as real * cfg.jitter
  {
    Factored(cfg, cpl);
    WithinJitter(cfg, cpl, rand);
    hide BaseInterval;
  }

  lemma WithinJitter(cfg: Config, cpl: nat, rand: real)
    requires cfg.Valid() && cpl <= cfg.maxCpl && 0.0 <= rand < 1.0
    ensures CplInterval(cfg, cpl, rand) as real <= BaseInterval(cfg, cpl) + cfg.interval as real * cfg.jitter
  {
    var j := cfg.interval as real * cfg.jitter;
    Product(cfg.interval as real, cfg.jitter);
    Product(j, 1.0 - rand);
    assert j * rand + j * (1.0 - rand) == j;
    hide BaseInterval;
  }

  /** In the first round neighbours are due an equal share of one interval apart, the highest first and first of all
      one share after the start, and all within the interval. */
  lemma FirstRoundSpread(cfg: Config, cpl: nat)
    requires cfg.Valid() && cpl <= cfg.maxCpl
    ensures var (dues, share) := (Initial(cfg), cfg.interval / (cfg.maxCpl + 1));
      && (forall c: nat :: c in dues <==> c <= cfg.maxCpl)
      && dues[cfg.maxCpl] == cfg.start + share
      && (cpl < cfg.maxCpl ==> dues[cpl] == dues[cpl + 1] + share)
      && dues[cpl] <= cfg.start + cfg.interval
  {
    StepsFit(cfg);
    Scaled(Step(cfg), cfg.maxCpl - cpl + 1, cfg.maxCpl + 1);
    if cpl < cfg.maxCpl {
      assert Step(cfg) * (cfg.maxCpl - cpl + 1) == Step(cfg) * (cfg.maxCpl - cpl) + Step(cfg);
    }
  }
}

/** The schedule as an object: an indexed heap of one entry for each cpl. */
module Explore {
  import opened Clock
  import opened Options
  import opened HeapOrder
  import Heap
  import opened ExploreSpec

  class DynamicExploreSchedule {
    const cfg: Config
    const cpls: Heap.Heap<CplDue>
    ghost var index: map<nat, Heap.Entry<CplDue>>

    ghost function Repr(): set<object>
      reads this, cpls
    {
      {this, cpls} + cpls.Entries()
    }

    /** The heap is in order and holds exactly one entry for each cpl up to n short of the highest. */
    ghost predicate Holds(n: nat)
      reads this, cpls, cpls.items
    {
      && cfg.Valid() && cpls.less == EntryLess && cpls.Valid()
      && (forall e :: e in cpls.Entries() ==> e.rank.cpl in index && index[e.rank.cpl] == e)
      && (forall c :: c in index ==> index[c] in cpls.Entries() && index[c].rank.cpl == c)
      && (forall c :: c in index <==> n <= c <= cfg.maxCpl)
    }

    ghost predicate Valid()
      reads this, cpls, cpls.items
    {
      Holds(0)
    }

    ghost function Dues(): map<nat, Instant>
      reads this, index.Values
    {
      map c | c in index :: index[c].rank.due
    }

    constructor (cfg: Config)
      requires cfg.Valid()
      ensures Valid() && fresh(Repr()) && this.cfg == cfg && Dues() == Initial(cfg)
    {
      EntryLessOrders();
      this.cfg := cfg;
      cpls := new Heap.Heap<CplDue>(EntryLess);
      index := map[];
      new;
      Fill();
    }

    /** Schedules every cpl, spread over one interval from the highest down. */
    method Fill()
      requires Holds(cfg.maxCpl + 1)
      modifies Repr()
      ensures Valid() && fresh(Repr() - old(Repr())) && Dues() == Initial(cfg)
    {
      NoneYet();
      DuesFromZero(cfg);
      hide Holds, Dues, EntryLess, FirstDue, Step, DuesFrom, Initial;
      var step := cfg.interval / (cfg.maxCpl + 1);
      var cpl: int := cfg.maxCpl;
      while cpl >= 0
        invariant -1 <= cpl <= cfg.maxCpl && Holds(cpl + 1) && fresh(Repr() - old(Repr()))
        invariant Dues() == DuesFrom(cfg, cpl + 1)
      {
        NextFirstDue(cfg, cpl);
        AppendSpread(step, cpl);
        cpl := cpl - 1;
      }
    }

    /** Schedules a cpl a step later for each cpl above it, and one more. */
    method AppendSpread(step: nat, cpl: nat)
      requires Holds(cpl + 1) && cpl <= cfg.maxCpl && step == cfg.interval / (cfg.maxCpl + 1)
      modifies Repr()
      ensures Holds(cpl) && fresh(Repr() - old(Repr())) && Dues() == old(Dues())[cpl := FirstDue(cfg, cpl)]
    {
      var due := cfg.start + step * (cfg.maxCpl - cpl + 1);
      assert due == FirstDue(cfg, cpl);
      hide *;
      Append(cpl, due);
    }

    lemma NoneYet()
      requires Holds(cfg.maxCpl + 1)
      ensures Dues() == DuesFrom(cfg, cfg.maxCpl + 1)
    {
    }

    /** Schedules the next lower cpl. */
    method Append(cpl: nat, due: Instant)
      requires Holds(cpl + 1) && cpl <= cfg.maxCpl
      modifies Repr()
      ensures Holds(cpl) && fresh(Repr() - old(Repr())) && Dues() == old(Dues())[cpl := due]
    {
      hide StrictWeakOrder, Ordered, FirstDue, EntryLess, Heap.Heap.Valid, Heap.Heap.Ranks, Heap.Heap.Indexed, Heap.Heap.Entries;
      ghost var was, entries := Dues(), cpls.Entries();
      var e := new Heap.Entry<CplDue>(CplDue(cpl, due));
      cpls.Push(e);
      index := index[cpl := e];
      hide Holds, Dues;
      OneMore(old(index), entries, cpl, e);
      DuesWith(was, cpl);
    }

    /** The index and the heap with one more cpl. */
    lemma OneMore(prev: map<nat, Heap.Entry<CplDue>>, entries: set<Heap.Entry<CplDue>>, cpl: nat, e: Heap.Entry<CplDue>)
      requires cfg.Valid() && cpls.less == EntryLess && cpls.Valid() && cpl <= cfg.maxCpl && e.rank.cpl == cpl
      requires index == prev[cpl := e] && cpls.Entries() == entries + {e}
      requires forall x :: x in entries ==> x.rank.cpl in prev && prev[x.rank.cpl] == x
      requires forall c :: c in prev ==> prev[c] in entries && prev[c].rank.cpl == c
      requires forall c :: c in prev <==> cpl + 1 <= c <= cfg.maxCpl
      ensures Holds(cpl)
    {
      hide EntryLess, Heap.Heap.Valid, Heap.Heap.Entries;
    }

    lemma DuesWith(was: map<nat, Instant>, cpl: nat)
      requires cpl in index && index.Keys == was.Keys + {cpl}
      requires forall c :: c in was && c != cpl ==> index[c].rank.due == was[c]
      ensures Dues() == was[cpl := index[cpl].rank.due]
    {
    }

    /** Nothing comes before the entry at the root. */
    lemma RootIsHead()
      requires Valid()
      ensures cfg.Valid() && |cpls.items| > 0
      ensures var v := cpls.items[0].rank;
        v.cpl in Dues() && Head(Dues(), v.cpl) && Dues()[v.cpl] == v.due && v.cpl <= cfg.maxCpl && v.cpl in index && index[v.cpl] == cpls.items[0]
    {
      assert index[0] in cpls.Entries();
      var e := cpls.items[0];
      assert e in cpls.Entries();
      forall c | c in index
        ensures !EntryLess(CplDue(c, index[c].rank.due), e.rank)
      {
        var i :| 0 <= i < |cpls.items| && cpls.items[i] == index[c];
        RootIsLeast(EntryLess, cpls.Ranks(), i);
        assert cpls.Ranks()[i] == CplDue(c, index[c].rank.due) && cpls.Ranks()[0] == e.rank;
      }
      hide StrictWeakOrder, Ordered, EntryLess;
    }

    /** The due time of the cpl that comes first. */
    method NextDue() returns (due: Instant)
      requires Valid()
      ensures exists c :: Head(Dues(), c) && due == Dues()[c]
    {
      RootIsHead();
      due := cpls.items[0].rank.due;
    }

    /** The cpl to explore next, if one is due. rand is a number drawn from [0, 1). */
    method NextCpl(ts: Instant, rand: real) returns (r: Option<nat>, ghost h: nat)
      requires Valid() && 0.0 <= rand < 1.0
      modifies Repr()
      ensures Valid() && Repr() == old(Repr())
      ensures Head(old(Dues()), h) && h <= cfg.maxCpl
      ensures (Dues(), r) == Next(cfg, old(Dues()), ts, rand, h)
    {
      hide *;
      RootIsHead();
      var next := cpls.items[0];
      h := next.rank.cpl;
      NextIs(cfg, Dues(), ts, rand, h);
      if next.rank.due > ts {
        return None, h;
      }
      PutOff(next, ts + CplInterval(cfg, next.rank.cpl, rand));
      r := Some(next.rank.cpl);
    }

    /** Puts off the cpl at the root and restores the order. */
    method PutOff(e: Heap.Entry<CplDue>, due: Instant)
      requires Valid() && |cpls.items| > 0 && e == cpls.items[0]
      modifies Repr()
      ensures Valid() && Repr() == old(Repr())
      ensures e.rank.cpl == old(e.rank.cpl) && Dues() == old(Dues())[e.rank.cpl := due]
    {
      assert e in cpls.Entries();
      hide EntryLess, Heap.Heap.Valid, Heap.Heap.Entries;
      Heap.Refix(cpls, e, e.rank.(due := due));
    }
  }

  lemma NextIs(cfg: Config, dues: map<nat, Instant>, ts: Instant, rand: real, c: nat)
    requires cfg.Valid() && c in dues && c <= cfg.maxCpl && 0.0 <= rand < 1.0
    ensures dues[c] > ts ==> Next(cfg, dues, ts, rand, c) == (dues, None)
    ensures dues[c] <= ts ==> Next(cfg, dues, ts, rand, c) == (dues[c := ts + CplInterval(cfg, c, rand)], Some(c))
  {
    hide CplInterval;
  }

  /** The first due times of the cpls from n up. */
  ghost function DuesFrom(cfg: Config, n: nat): map<nat, Instant> {
    map c: nat | n <= c <= cfg.maxCpl :: FirstDue(cfg, c)
  }

  lemma DuesFromZero(cfg: Config)
    ensures DuesFrom(cfg, 0) == Initial(cfg)
  {
  }

  lemma NextFirstDue(cfg: Config, cpl: nat)
    requires cpl <= cfg.maxCpl
    ensures DuesFrom(cfg, cpl) == DuesFrom(cfg, cpl + 1)[cpl := FirstDue(cfg, cpl)]
  {
    hide FirstDue;
  }
}
