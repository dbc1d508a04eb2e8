/** Exactly when the map that surveys lead to is always in normal form, and exactly when no region waits longer
    than the number of regions due with it. */
module SurveyExact {
  import opened Keys
  import opened Clock
  import opened Options
  import opened Sequences
  import opened RegionTable
  import opened RegionProofs
  import RegionRuns
  import Lookup
  import opened Schedule
  import opened SurveySpec
  import opened SurveyProofs
  import opened SurveyReach
  import opened SurveyWait

  // ---------- Normal form ----------

  /** Every map that surveys lead to is in normal form exactly within these limits. */
  lemma NormalExactly(cfg: SurveySpec.Config)
    requires cfg.Valid()
    ensures (forall s, t :: Reached(cfg, s, t) ==> Normal(cfg.table, s.trie, 0)) <==> StaysNormal(cfg)
  {
    hide *;
    if StaysNormal(cfg) {
      forall s, t | Reached(cfg, s, t) ensures Normal(cfg.table, s.trie, 0) {
        ReachedNormal(cfg, s, t);
      }
    } else {
      var s, t := AbnormalSurveys(cfg);
    }
  }

  lemma ReachedNormal(cfg: SurveySpec.Config, s: State, t: Instant)
    requires Reached(cfg, s, t) && StaysNormal(cfg)
    ensures Normal(cfg.table, s.trie, 0)
  {
    var ins :| LeadsTo(cfg, ins, s, t);
    hide Inv, Normal, StaysNormal;
    AlwaysNormal(cfg, ins);
  }

  /** Outside the limits surveys lead to a map that is not in normal form: once it is one region, more nodes
      are found than that may hold, in two halves that are both sparse. */
  lemma AbnormalSurveys(cfg: SurveySpec.Config) returns (s: State, t: Instant)
    requires cfg.Valid() && !StaysNormal(cfg)
    ensures Reached(cfg, s, t) && !Normal(cfg.table, s.trie, 0)
  {
    hide *;
    BeyondLimits(cfg);
    var nodes := RegionRuns.Overflow(cfg.table, Some(cfg.self));
    AllButSelf(cfg, nodes);
    var s0, t0, i := Finds(cfg, nodes);
    var found, ev := FoundLast(cfg, s0, t0, nodes, i, t0);
    s, t := SurveySpec.Advance(cfg, s0, t0, ev, Nothing()).0, t0;
    SameFind(cfg.table, nodes, found);
    RegionRuns.SparseHalves(cfg.table, found, t0);
    WholeMap(cfg, s0, t0, nodes, found, t0);
  }

  lemma BeyondLimits(cfg: SurveySpec.Config)
    requires cfg.Valid() && !StaysNormal(cfg)
    ensures cfg.table.Valid() && |cfg.self| == cfg.table.keyLen
    ensures 2 * cfg.table.minPopulation > cfg.table.maxPopulation
    ensures RegionRuns.Room(cfg.table.keyLen, Some(cfg.self)) > cfg.table.maxPopulation
  {
  }

  lemma AllButSelf(cfg: SurveySpec.Config, nodes: seq<Bits>)
    requires |nodes| > 0 && forall k :: k in nodes ==> Some(k) != Some(cfg.self)
    ensures cfg.self !in nodes
  {
    assert forall k :: k in nodes ==> k != cfg.self;
  }

  /** The last answer comes at a given time, and the survey has found the nodes it was to find. */
  lemma FoundLast(cfg: SurveySpec.Config, s: State, t: Instant, nodes: seq<Bits>, i: nat, later: Instant) returns (found: seq<Bits>, ev: Event)
    requires Surveying(cfg, s, t, nodes) && Reached(cfg, s, t) && t > 0 && t <= later
    requires var q := s.running.value.query; i < |q.nodes| && q.nodes[i].state.Waiting? && LookupAnswers.LastWaits(q.nodes, i)
    ensures Inv(cfg, s) && SurveySpec.ValidEvent(cfg, ev) && ValidSupply(cfg, Nothing()) && RunningOk(cfg, s.running.value) && cfg.Valid()
    ensures KeysOf(cfg.table, found) && RegionRuns.OfRegion(found, []) && forall k :: k in found <==> k in nodes
    ensures var s' := SurveySpec.Advance(cfg, s, later, ev, Nothing()).0;
      s' == Recorded(cfg, s, [], found, later) && Reached(cfg, s', later)
    ensures exists q :: FinishesWith(cfg, s.running.value, later, ev, q, found)
  {
    ev := FindCloserResponse(s.running.value.query.nodes[i].key, []);
    hide *;
    found := LastFinds(cfg, s, t, nodes, i, later);
    Step(cfg, s, t, later, ev, Nothing());
  }

  lemma SameFind(cfg: RegionTable.Config, nodes: seq<Bits>, found: seq<Bits>)
    requires KeysOf(cfg, nodes) && RegionRuns.OfRegion(nodes, []) && cfg.keyLen > 0
    requires KeysOf(cfg, found) && RegionRuns.OfRegion(found, []) && forall k :: k in found <==> k in nodes
    ensures |found| == |nodes|
    ensures (forall i :: 0 <= i < |nodes| ==> 0 < |nodes[i]|) && forall i :: 0 <= i < |found| ==> 0 < |found[i]|
    ensures forall b :: |Group(found, 0, b)| == |Group(nodes, 0, b)|
  {
    SameLength(found, nodes);
    assert forall i :: 0 <= i < |found| ==> found[i] in found;
    forall b ensures |Group(found, 0, b)| == |Group(nodes, 0, b)| {
      RegionRuns.GroupsInAnyOrder(found, nodes, b);
    }
    hide Group;
  }

  /** A find in a map of one region makes the map anew. */
  lemma WholeMap(cfg: SurveySpec.Config, s: State, t: Instant, nodes: seq<Bits>, found: seq<Bits>, now: Instant)
    requires Surveying(cfg, s, t, nodes) && KeysOf(cfg.table, found)
    ensures Recorded(cfg, s, [], found, now).trie == BuildLeaf(cfg.table, found, 0, now)
  {
    hide Inv, RunsThrough, BuildLeaf, Rescheduled, KeysOf;
  }

  // ---------- The wait ----------

  /** Inputs in order, none before a given time. */
  ghost predicate From(cfg: SurveySpec.Config, ins: seq<Input>, t: Instant) {
    ValidInputs(cfg, ins) && InOrder(ins) && forall i :: 0 <= i < |ins| ==> t <= ins[i].now
  }

  /** Over these inputs every region due by D is picked before as many others are as there are regions due
      by D. */
  ghost predicate KeepsBound(cfg: SurveySpec.Config, s: State, ins: seq<Input>, D: Instant)
    requires Inv(cfg, s) && ValidInputs(cfg, ins)
  {
    forall k: Bits :: |k| == cfg.table.keyLen && Pending(s, k, D) ==>
      PicksRegionOf(cfg, s, ins, k) || |AllPicked(cfg, s, ins)| < |DueBy(s.dues, D)|
  }

  /** Polls with nothing to draw on, all at the same time. */
  function Polls(now: Instant, n: nat): seq<Input> {
    if n == 0 then [] else Polls(now, n - 1) + [Input(now, Poll, Nothing())]
  }

  lemma {:induction false} PollsInOrder(cfg: SurveySpec.Config, base: seq<Input>, now: Instant, n: nat)
    requires ValidInputs(cfg, base) && now > 0
    ensures ValidInputs(cfg, base + Polls(now, n))
    ensures forall i :: 0 <= i < |base + Polls(now, n)| ==>
      (base + Polls(now, n))[i] == if i < |base| then base[i] else Input(now, Poll, Nothing())
  {
    SuppliesOk(cfg, []);
    hide SurveySpec.ValidEvent, ValidSupply;
    if n == 0 {
      assert base + Polls(now, n) == base;
    } else {
      PollsInOrder(cfg, base, now, n - 1);
      var ins := base + Polls(now, n - 1);
      assert base + Polls(now, n) == ins + [Input(now, Poll, Nothing())];
      assert |ins| >= |base|;
    }
  }

  /** One more poll: it picks a region due by D, and puts it off beyond. */
  lemma OnePoll(cfg: SurveySpec.Config, s: State, now: Instant, D: Instant) returns (p: Bits)
    requires Inv(cfg, s) && s.seeded && s.running.None? && now > 0 && D <= now && DueBy(s.dues, D) != {}
    ensures p in DueBy(s.dues, D) && Picked(cfg, s, now) == Some(p)
    ensures ValidSupply(cfg, Nothing()) && SurveySpec.ValidEvent(cfg, Poll)
    ensures var s' := SurveySpec.Advance(cfg, s, now, Poll, Nothing()).0;
      s' == PutOff(cfg, s, p, now) && DueBy(s'.dues, D) == DueBy(s.dues, D) - {p}
  {
    var x :| x in DueBy(s.dues, D);
    p := First(s.dues);
    assert !DueLess(Due(s.dues[x], x), Due(s.dues[p], p));
    PollFails(cfg, s, now);
    PutOffCount(cfg, s, p, now, D);
    hide Inv, SurveySpec.Advance, ValidSupply, SurveySpec.ValidEvent;
  }

  /** The run that takes inputs one more: what it leads to and what it picks. */
  lemma Snoc(cfg: SurveySpec.Config, s: State, ins: seq<Input>, last: Input)
    requires Inv(cfg, s) && ValidInputs(cfg, ins) && ValidInputs(cfg, ins + [last])
    ensures cfg.Valid() && SurveySpec.ValidEvent(cfg, last.ev) && ValidSupply(cfg, last.supply)
    ensures var e, more := After(cfg, s, ins), ins + [last];
      && (e.running.Some? ==> RunningOk(cfg, e.running.value))
      && After(cfg, s, more) == SurveySpec.Advance(cfg, e, last.now, last.ev, last.supply).0
      && AllPicked(cfg, s, more) ==
           AllPicked(cfg, s, ins) + (if Picked(cfg, e, last.now).Some? then [Picked(cfg, e, last.now).value] else [])
      && forall k: Bits :: |k| == cfg.table.keyLen ==>
           (PicksRegionOf(cfg, s, more, k) <==>
              PicksRegionOf(cfg, s, ins, k) || Picked(cfg, e, last.now) == Some(LocatePrefix(e.trie, k)))
  {
    var more := ins + [last];
    LastInput(cfg, s, more);
    assert more[..|more| - 1] == ins && more[|more| - 1] == last;
    hide Inv, SurveySpec.Advance, SurveySpec.ValidEvent, ValidSupply, RunningOk, Picked, LocatePrefix, DepthWithin, SurveySpec.Config.Valid;
    hide After, ValidInputs;
  }

  /** Polls at one time pick one region each of those due by D, and no other. */
  lemma {:induction false} PollsPick(cfg: SurveySpec.Config, s: State, base: seq<Input>, now: Instant, D: Instant, n: nat)
    requires Inv(cfg, s) && ValidInputs(cfg, base) && now > 0 && D <= now
    requires var s1 := After(cfg, s, base); s1.seeded && s1.running.None? && n <= |DueBy(s1.dues, D)|
    ensures ValidInputs(cfg, base + Polls(now, n))
    ensures var s1, ins := After(cfg, s, base), base + Polls(now, n);
      var e := After(cfg, s, ins);
      && e.trie == s1.trie && e.seeded && e.running.None?
      && |AllPicked(cfg, s, ins)| == |AllPicked(cfg, s, base)| + n && |DueBy(e.dues, D)| == |DueBy(s1.dues, D)| - n
      && DueBy(e.dues, D) <= DueBy(s1.dues, D)
      && forall k: Bits :: |k| == cfg.table.keyLen && LocatePrefix(s1.trie, k) in DueBy(e.dues, D) ==>
           (PicksRegionOf(cfg, s, ins, k) <==> PicksRegionOf(cfg, s, base, k))
  {
    hide Inv, SurveySpec.Advance, ValidInputs, After, AllPicked, PicksRegionOf, Picked, LocatePrefix, DepthWithin;
    PollsInOrder(cfg, base, now, n);
    if n == 0 {
      assert base + Polls(now, n) == base;
    } else {
      PollsPick(cfg, s, base, now, D, n - 1);
      var ins := base + Polls(now, n - 1);
      assert base + Polls(now, n) == ins + [Input(now, Poll, Nothing())];
      var p := OnePoll(cfg, After(cfg, s, ins), now, D);
      Snoc(cfg, s, ins, Input(now, Poll, Nothing()));
    }
  }

  /** Before a step at which a region due by D is split, its survey was under way all along: nothing was picked
      and the schedule stayed. */
  lemma {:induction false} UnclearBefore(cfg: SurveySpec.Config, s: State, ins: seq<Input>, D: Instant)
    requires Inv(cfg, s) && s.seeded && ValidInputs(cfg, ins) && forall i :: 0 <= i < |ins| ==> D <= ins[i].now
    requires !Clear(After(cfg, s, ins), D)
    ensures After(cfg, s, ins).trie == s.trie && After(cfg, s, ins).dues == s.dues && After(cfg, s, ins).seeded
    ensures AllPicked(cfg, s, ins) == [] && forall k: Bits :: |k| == cfg.table.keyLen ==> !PicksRegionOf(cfg, s, ins, k)
    decreases |ins|
  {
    if |ins| > 0 {
      hide *;
      var init, last := ins[..|ins| - 1], ins[|ins| - 1];
      InitInputs(cfg, ins, D);
      AfterSeeded(cfg, s, init);
      LastInput(cfg, s, ins);
      UnclearStep(cfg, After(cfg, s, init), last.now, last.ev, last.supply, D);
      UnclearBefore(cfg, s, init, D);
      NonePicked(cfg, s, ins);
    }
  }

  lemma NonePicked(cfg: SurveySpec.Config, s: State, ins: seq<Input>)
    requires Inv(cfg, s) && ValidInputs(cfg, ins) && |ins| > 0 && ValidInputs(cfg, ins[..|ins| - 1])
    requires var init := ins[..|ins| - 1];
      && AllPicked(cfg, s, init) == [] && (forall k: Bits :: |k| == cfg.table.keyLen ==> !PicksRegionOf(cfg, s, init, k))
      && Picked(cfg, After(cfg, s, init), ins[|ins| - 1].now).None?
    ensures AllPicked(cfg, s, ins) == [] && forall k: Bits :: |k| == cfg.table.keyLen ==> !PicksRegionOf(cfg, s, ins, k)
  {
    hide Inv, SurveySpec.Advance, ValidInputs, After, Picked, LocatePrefix, DepthWithin, SurveySpec.Config.Valid;
  }

  lemma InitInputs(cfg: SurveySpec.Config, ins: seq<Input>, D: Instant)
    requires |ins| > 0 && ValidInputs(cfg, ins) && forall i :: 0 <= i < |ins| ==> D <= ins[i].now
    ensures var init, last := ins[..|ins| - 1], ins[|ins| - 1];
      && ValidInputs(cfg, init) && (forall i :: 0 <= i < |init| ==> D <= init[i].now)
      && D <= last.now && last.now > 0 && SurveySpec.ValidEvent(cfg, last.ev) && ValidSupply(cfg, last.supply)
  {
    hide SurveySpec.ValidEvent, ValidSupply;
  }

  lemma {:induction false} AfterSeeded(cfg: SurveySpec.Config, s: State, ins: seq<Input>)
    requires Inv(cfg, s) && s.seeded && ValidInputs(cfg, ins)
    ensures After(cfg, s, ins).seeded
  {
    if |ins| > 0 {
      var init, last := ins[..|ins| - 1], ins[|ins| - 1];
      LastInput(cfg, s, ins);
      ScheduleAgrees(cfg, After(cfg, s, init), last.now, last.ev, last.supply);
      hide Inv, SurveySpec.Advance;
    }
  }

  /** A step to a state with an overdue survey under way only took that survey on. */
  lemma UnclearStep(cfg: SurveySpec.Config, s: State, now: Instant, ev: Event, supply: Supply, D: Instant)
    requires Inv(cfg, s) && s.seeded && now > 0 && SurveySpec.ValidEvent(cfg, ev) && ValidSupply(cfg, supply) && D <= now
    requires !Clear(SurveySpec.Advance(cfg, s, now, ev, supply).0, D)
    ensures !Clear(s, D) && Picked(cfg, s, now).None?
    ensures var s' := SurveySpec.Advance(cfg, s, now, ev, supply).0; s'.trie == s.trie && s'.dues == s.dues
  {
    if Clear(s, D) {
      ClearStep(cfg, s, now, ev, supply, D);
      assert false;
    } else {
      EventFits(cfg, s, ev);
      hide AdvanceQuery, RunningOk, Names, DepthWithin, Lookup.ValidEvent, Lookup.Advance, Rescheduled, Observed, KeysOf;
      var r', members := QueryCases(cfg, s, s.running.value, now, QueryEvent(ev));
    }
  }

  /** The step of a run at which a region due by D is split. */
  lemma {:induction false} SplitStep(cfg: SurveySpec.Config, s: State, ins: seq<Input>, D: Instant) returns (n: nat)
    requires Inv(cfg, s) && ValidInputs(cfg, ins) && SplitsOverdueIn(cfg, s, ins, D)
    ensures n < |ins| && ValidInputs(cfg, ins[..n]) && ValidInputs(cfg, ins[..n + 1])
    ensures Inv(cfg, After(cfg, s, ins[..n])) && SurveySpec.ValidEvent(cfg, ins[n].ev)
    ensures var e := After(cfg, s, ins[..n]);
      e.running.Some? ==> RunningOk(cfg, e.running.value) && Lookup.ValidEvent(e.running.value.cfg, QueryEvent(ins[n].ev))
    ensures SplitsOverdue(cfg, After(cfg, s, ins[..n]), ins[n].now, ins[n].ev, D)
    decreases |ins|
  {
    hide Inv, SplitsOverdue, SurveySpec.ValidEvent, ValidSupply, Lookup.ValidEvent, RunningOk, After;
    var init, last := ins[..|ins| - 1], ins[|ins| - 1];
    EventFits(cfg, After(cfg, s, init), last.ev);
    if SplitsOverdue(cfg, After(cfg, s, init), last.now, last.ev, D) {
      n := |ins| - 1;
      assert ins[..n + 1] == ins;
    } else {
      n := SplitStep(cfg, s, init, D);
      assert init[..n] == ins[..n] && init[..n + 1] == ins[..n + 1];
    }
  }

  /** What a step that splits a region due by D comes to. */
  lemma SplitRecords(cfg: SurveySpec.Config, s: State, now: Instant, ev: Event, supply: Supply, D: Instant) returns (members: seq<Bits>)
    requires Inv(cfg, s) && s.seeded && now > 0 && SurveySpec.ValidEvent(cfg, ev) && ValidSupply(cfg, supply)
    requires s.running.Some? ==> RunningOk(cfg, s.running.value) && Lookup.ValidEvent(s.running.value.cfg, QueryEvent(ev))
    requires SplitsOverdue(cfg, s, now, ev, D) && Inv(cfg, SurveySpec.Advance(cfg, s, now, ev, supply).0)
    ensures cfg.Valid() && DepthWithin(s.trie, cfg.table.keyLen) && Agrees(s.trie, s.dues)
    ensures s.running.Some? && Names(s.trie, s.running.value.prefix) && KeysOf(cfg.table, members)
    ensures var p := s.running.value.prefix; p in s.dues && s.dues[p] <= D && Splits(cfg.table, p, members)
    ensures var s' := SurveySpec.Advance(cfg, s, now, ev, supply).0;
      && s'.running.None? && DepthWithin(s'.trie, cfg.table.keyLen)
      && s'.trie == Observed(cfg.table, s.trie, s.running.value.prefix, members, now)
      && s'.dues == Rescheduled(s.trie, s'.trie, s.dues)
  {
    hide AdvanceQuery, RunningOk, Names, DepthWithin, Lookup.ValidEvent, Lookup.Advance, Rescheduled, Observed, KeysOf, Agrees;
    var r', found := QueryCases(cfg, s, s.running.value, now, QueryEvent(ev));
    members := found;
  }

  /** After a step that splits a region due by D, every key of a region due by D was in one before. */
  lemma SplitKeepsDue(cfg: SurveySpec.Config, s: State, now: Instant, ev: Event, supply: Supply, D: Instant, k: Bits)
    requires Inv(cfg, s) && s.seeded && now > 0 && SurveySpec.ValidEvent(cfg, ev) && ValidSupply(cfg, supply)
    requires s.running.Some? ==> RunningOk(cfg, s.running.value) && Lookup.ValidEvent(s.running.value.cfg, QueryEvent(ev))
    requires SplitsOverdue(cfg, s, now, ev, D) && |k| == cfg.table.keyLen
    requires var s' := SurveySpec.Advance(cfg, s, now, ev, supply).0; Inv(cfg, s') && Pending(s', k, D)
    ensures Pending(s, k, D)
  {
    hide *;
    var members := SplitRecords(cfg, s, now, ev, supply, D);
    PartOrSame(cfg, s.trie, s.dues, s.running.value.prefix, members, now, k);
    StillDue(s, SurveySpec.Advance(cfg, s, now, ev, supply).0, s.running.value.prefix, k, D);
  }

  /** After a split a key is in a part of the region split, or in the region it was in, due as before. */
  lemma PartOrSame(cfg: SurveySpec.Config, was: Trie, dues: map<Bits, Instant>, p: Bits, members: seq<Bits>, now: Instant, k: Bits)
    requires cfg.Valid() && DepthWithin(was, cfg.table.keyLen) && Agrees(was, dues) && |k| == cfg.table.keyLen
    requires Names(was, p) && KeysOf(cfg.table, members) && Splits(cfg.table, p, members)
    ensures var next := Observed(cfg.table, was, p, members, now);
      && DepthWithin(next, |k|)
      && var d, g := Rescheduled(was, next, dues), LocatePrefix(was, k);
         g == p || (g == LocatePrefix(next, k) && g in dues && g in d && d[g] == dues[g])
  {
    hide *;
    var next := Observed(cfg.table, was, p, members, now);
    var g := LocatePrefix(was, k);
    Tiling(was, k);
    if g != p {
      Splitting(cfg.table, p, members, was, dues, g);
      Untouched(cfg, was, dues, p, members, now, g);
      AppliedTo(cfg.table, was, p, members, now);
      SplitAlone(cfg.table, was, p, 0, members, now, g);
      if p <= g {
        PrefixFree(was, p, g);
      }
    }
    ObservedDepth(cfg.table, was, p, members, now);
    Tiling(next, k);
  }

  lemma Splitting(cfg: RegionTable.Config, p: Bits, members: seq<Bits>, was: Trie, dues: map<Bits, Instant>, g: Bits)
    requires Splits(cfg, p, members) && Agrees(was, dues) && Names(was, g)
    ensures |members| > cfg.maxPopulation && 0 + |p| < cfg.keyLen && g in dues
  {
    hide Names;
  }

  lemma StillDue(s: State, s': State, p: Bits, k: Bits, D: Instant)
    requires DepthWithin(s.trie, |k|) && DepthWithin(s'.trie, |k|) && p in s.dues && s.dues[p] <= D && Pending(s', k, D)
    requires var g := LocatePrefix(s.trie, k);
      g == p || (g == LocatePrefix(s'.trie, k) && g in s.dues && g in s'.dues && s'.dues[g] == s.dues[g])
    ensures Pending(s, k, D)
  {
    hide DepthWithin, LocatePrefix;
  }

  /** With a split of a region due by D nothing has been picked yet, more regions are due by D than at first,
      and only keys of regions due by D at first are in them. */
  lemma UpToSplit(cfg: SurveySpec.Config, s: State, pre: seq<Input>, x: Input, D: Instant)
    requires Inv(cfg, s) && s.seeded && ValidInputs(cfg, pre) && ValidInputs(cfg, pre + [x])
    requires D <= x.now && forall i :: 0 <= i < |pre| ==> D <= pre[i].now
    requires var e := After(cfg, s, pre);
      && SurveySpec.ValidEvent(cfg, x.ev)
      && (e.running.Some? ==> RunningOk(cfg, e.running.value) && Lookup.ValidEvent(e.running.value.cfg, QueryEvent(x.ev)))
      && SplitsOverdue(cfg, e, x.now, x.ev, D)
    ensures var s1 := After(cfg, s, pre + [x]);
      && s1.seeded && s1.running.None? && |DueBy(s1.dues, D)| > |DueBy(s.dues, D)| && AllPicked(cfg, s, pre + [x]) == []
      && DepthWithin(s1.trie, cfg.table.keyLen) && DepthWithin(s.trie, cfg.table.keyLen)
      && forall k: Bits :: |k| == cfg.table.keyLen ==>
           !PicksRegionOf(cfg, s, pre + [x], k) && (Pending(s1, k, D) ==> Pending(s, k, D))
  {
    hide *;
    var e := After(cfg, s, pre);
    LastOf(cfg, pre, x);
    Snoc(cfg, s, pre, x);
    AfterSeeded(cfg, s, pre);
    OverdueUnclear(cfg, e, x.now, x.ev, D);
    UnclearBefore(cfg, s, pre, D);
    StepRaisesExactly(cfg, e, x.now, x.ev, x.supply, D);
    ScheduleAgrees(cfg, e, x.now, x.ev, x.supply);
    var members := SplitRecords(cfg, e, x.now, x.ev, x.supply, D);
    forall k: Bits | |k| == cfg.table.keyLen && Pending(After(cfg, s, pre + [x]), k, D) ensures Pending(s, k, D) {
      SplitKeepsDue(cfg, e, x.now, x.ev, x.supply, D, k);
      SamePending(e, s, k, D);
    }
  }

  lemma LastOf(cfg: SurveySpec.Config, pre: seq<Input>, x: Input)
    requires ValidInputs(cfg, pre + [x])
    ensures x.now > 0 && SurveySpec.ValidEvent(cfg, x.ev) && ValidSupply(cfg, x.supply)
  {
    assert (pre + [x])[|pre|] == x;
    hide SurveySpec.ValidEvent, ValidSupply;
  }

  lemma OverdueUnclear(cfg: SurveySpec.Config, s: State, now: Instant, ev: Event, D: Instant)
    requires s.running.Some? ==> RunningOk(cfg, s.running.value) && Lookup.ValidEvent(s.running.value.cfg, QueryEvent(ev))
    requires SplitsOverdue(cfg, s, now, ev, D)
    ensures !Clear(s, D) && s.running.Some? && Picked(cfg, s, now).None?
  {
    hide RunningOk, Lookup.ValidEvent, Lookup.Advance;
  }

  lemma SamePending(a: State, b: State, k: Bits, D: Instant)
    requires a.trie == b.trie && a.dues == b.dues && DepthWithin(a.trie, |k|) && Pending(a, k, D)
    ensures Pending(b, k, D)
  {
  }

  /** A key of a region due by D, with which the bound fails: as many regions as were due by D at first have been
      picked, and its own has not. */
  lemma LeftOver(cfg: SurveySpec.Config, s: State, base: seq<Input>, ins: seq<Input>, D: Instant)
    requires Inv(cfg, s) && ValidInputs(cfg, base) && ValidInputs(cfg, ins)
    requires var s1 := After(cfg, s, base);
      && DepthWithin(s1.trie, cfg.table.keyLen) && DepthWithin(s.trie, cfg.table.keyLen) && Agrees(s1.trie, s1.dues)
      && (forall k: Bits :: |k| == cfg.table.keyLen ==>
            !PicksRegionOf(cfg, s, base, k) && (Pending(s1, k, D) ==> Pending(s, k, D)))
      && var due := DueBy(After(cfg, s, ins).dues, D);
         && due != {} && due <= DueBy(s1.dues, D) && |AllPicked(cfg, s, ins)| >= |DueBy(s.dues, D)|
         && forall k: Bits :: |k| == cfg.table.keyLen && LocatePrefix(s1.trie, k) in due ==>
              (PicksRegionOf(cfg, s, ins, k) <==> PicksRegionOf(cfg, s, base, k))
    ensures !KeepsBound(cfg, s, ins, D)
  {
    hide DepthWithin, PicksRegionOf, LocatePrefix, AllPicked, After, Inv, ValidInputs, Names;
    var s1 := After(cfg, s, base);
    var x :| x in DueBy(After(cfg, s, ins).dues, D);
    NamesWithin(s1.trie, x, cfg.table.keyLen);
    var k := Padded(x, cfg.table.keyLen);
    Tiling(s1.trie, k);
    hide Padded;
    assert LocatePrefix(s1.trie, k) == x && Pending(s1, k, D);
  }

  /** A run that splits a region due by D, and then polls as often as there were regions due by D, breaks the
      bound. */
  lemma SplitBreaksBound(cfg: SurveySpec.Config, s: State, ins: seq<Input>, D: Instant) returns (broken: seq<Input>)
    requires Inv(cfg, s) && s.seeded && From(cfg, ins, D) && SplitsOverdueIn(cfg, s, ins, D)
    ensures From(cfg, broken, D) && !KeepsBound(cfg, s, broken, D)
  {
    hide *;
    FromFacts(cfg, ins, D);
    var n := SplitStep(cfg, s, ins, D);
    var base, x, m := ins[..n + 1], ins[n], |DueBy(s.dues, D)|;
    assert base == ins[..n] + [x];
    UpToSplit(cfg, s, ins[..n], x, D);
    PollsPick(cfg, s, base, x.now, D, m);
    PollsFrom(cfg, ins, n, m, D);
    broken := base + Polls(x.now, m);
    AgreesAfter(cfg, s, base);
    LeftOver(cfg, s, base, broken, D);
  }

  lemma AgreesAfter(cfg: SurveySpec.Config, s: State, ins: seq<Input>)
    requires Inv(cfg, s) && ValidInputs(cfg, ins) && After(cfg, s, ins).seeded
    ensures Agrees(After(cfg, s, ins).trie, After(cfg, s, ins).dues)
  {
    hide Agrees, After, ValidInputs, DepthWithin, RunningOk, Names;
  }

  lemma FromFacts(cfg: SurveySpec.Config, ins: seq<Input>, t: Instant)
    requires From(cfg, ins, t)
    ensures ValidInputs(cfg, ins) && forall i :: 0 <= i < |ins| ==> t <= ins[i].now && ins[i].now > 0
  {
    hide SurveySpec.ValidEvent, ValidSupply;
  }

  lemma PollsFrom(cfg: SurveySpec.Config, ins: seq<Input>, n: nat, m: nat, t: Instant)
    requires From(cfg, ins, t) && n < |ins| && ValidInputs(cfg, ins[..n + 1])
    ensures From(cfg, ins[..n + 1] + Polls(ins[n].now, m), t)
  {
    hide SurveySpec.ValidEvent, ValidSupply;
    PollsInOrder(cfg, ins[..n + 1], ins[n].now, m);
  }

  /** From any state, some run breaks the bound exactly when some run splits a region due by D. */
  lemma BreaksExactly(cfg: SurveySpec.Config, s: State, D: Instant)
    requires Inv(cfg, s) && s.seeded
    ensures (exists ins :: From(cfg, ins, D) && !KeepsBound(cfg, s, ins, D))
      <==> exists ins :: From(cfg, ins, D) && SplitsOverdueIn(cfg, s, ins, D)
  {
    hide KeepsBound, SplitsOverdueIn, Inv, InOrder, ValidInputs;
    if ins :| From(cfg, ins, D) && SplitsOverdueIn(cfg, s, ins, D) {
      var broken := SplitBreaksBound(cfg, s, ins, D);
    } else {
      forall ins | From(cfg, ins, D) ensures KeepsBound(cfg, s, ins, D) {
        UnsplitKeeps(cfg, s, ins, D);
      }
    }
  }

  lemma UnsplitKeeps(cfg: SurveySpec.Config, s: State, ins: seq<Input>, D: Instant)
    requires Inv(cfg, s) && s.seeded && From(cfg, ins, D) && !SplitsOverdueIn(cfg, s, ins, D)
    ensures KeepsBound(cfg, s, ins, D)
  {
    hide Inv, SplitsOverdueIn, Pending, PicksRegionOf, AllPicked, ValidInputs, InOrder, DepthWithin;
    Fits(cfg, s);
    forall k: Bits | |k| == cfg.table.keyLen && Pending(s, k, D)
      ensures PicksRegionOf(cfg, s, ins, k) || |AllPicked(cfg, s, ins)| < |DueBy(s.dues, D)|
    {
      BoundedWait(cfg, s, ins, k, D);
    }
  }

  lemma Fits(cfg: SurveySpec.Config, s: State)
    requires Inv(cfg, s)
    ensures cfg.Valid() && DepthWithin(s.trie, cfg.table.keyLen)
  {
  }

  /** No region waits longer than the number of regions due with it: in every state that runs lead to, over every
      run from there. */
  ghost predicate WaitsAreBounded(cfg: SurveySpec.Config) {
    forall s, t, ins, D :: Reached(cfg, s, t) && s.seeded && Inv(cfg, s) && t <= D && From(cfg, ins, D) ==> KeepsBound(cfg, s, ins, D)
  }

  /** The bound without splits holds exactly where no survey can find enough to split a region. */
  lemma BoundExactly(cfg: SurveySpec.Config)
    requires cfg.Valid()
    ensures WaitsAreBounded(cfg) <==> Pow2(cfg.table.keyLen) <= cfg.table.maxPopulation + 1
  {
    if Pow2(cfg.table.keyLen) <= cfg.table.maxPopulation + 1 {
      hide Reached, From, KeepsBound;
      forall s, t, ins, D | Reached(cfg, s, t) && s.seeded && Inv(cfg, s) && t <= D && From(cfg, ins, D)
        ensures KeepsBound(cfg, s, ins, D)
      {
        FromFacts(cfg, ins, D);
        NeverSplits(cfg, s, ins, D);
        UnsplitKeeps(cfg, s, ins, D);
      }
    } else {
      LargeBreaks(cfg);
    }
  }

  /** Too few keys to split any region, self aside. */
  lemma TooFew(cfg: SurveySpec.Config, r: Running, now: Instant, ev: Event)
    requires cfg.Valid() && RunningOk(cfg, r) && now > 0 && Lookup.ValidEvent(r.cfg, QueryEvent(ev))
    requires Pow2(cfg.table.keyLen) <= cfg.table.maxPopulation + 1
    requires Lookup.Advance(r.cfg, r.query, now, QueryEvent(ev)).1.Finished?
    ensures !Splits(cfg.table, r.prefix, Lookup.Advance(r.cfg, r.query, now, QueryEvent(ev)).1.results)
  {
    hide *;
    ValidTable(cfg);
    NoCancel(ev);
    var found := FoundInRegion(cfg, r, now, QueryEvent(ev));
    if |r.prefix| < cfg.table.keyLen {
      RegionRuns.ReportFits(cfg.table, found, r.prefix, Some(cfg.self));
      RoomWithin(cfg.table, r.prefix, cfg.self);
    }
    NoSplit(cfg.table, r.prefix, found);
  }

  lemma NoCancel(ev: Event)
    ensures !QueryEvent(ev).Cancel?
  {
  }

  lemma NoSplit(cfg: RegionTable.Config, p: Bits, found: seq<Bits>)
    requires |p| < cfg.keyLen ==> |found| <= cfg.maxPopulation
    ensures !Splits(cfg, p, found)
  {
  }

  lemma RoomWithin(cfg: RegionTable.Config, p: Bits, me: Bits)
    requires cfg.Valid() && |p| < cfg.keyLen && |me| == cfg.keyLen && Pow2(cfg.keyLen) <= cfg.maxPopulation + 1
    ensures RegionRuns.Room(cfg.keyLen - |p|, RegionRuns.BelowPath(Some(me), p)) <= cfg.maxPopulation
  {
    RegionRuns.BelowPathIs(me, p);
    if |p| > 0 {
      Pow2Grows(cfg.keyLen - |p|, cfg.keyLen - 1);
    }
  }

  lemma {:induction false} Pow2Grows(a: nat, b: nat)
    requires a <= b
    ensures Pow2(a) <= Pow2(b)
  {
    if a < b {
      Pow2Grows(a, b - 1);
    }
  }

  lemma {:induction false} NeverSplits(cfg: SurveySpec.Config, s: State, ins: seq<Input>, D: Instant)
    requires Inv(cfg, s) && ValidInputs(cfg, ins) && Pow2(cfg.table.keyLen) <= cfg.table.maxPopulation + 1
    ensures !SplitsOverdueIn(cfg, s, ins, D)
    decreases |ins|
  {
    if |ins| > 0 {
      var init, last := ins[..|ins| - 1], ins[|ins| - 1];
      NeverSplits(cfg, s, init, D);
      var e := After(cfg, s, init);
      EventFits(cfg, e, last.ev);
      Fits(cfg, e);
      hide Inv, RunningOk, Lookup.ValidEvent, Lookup.Advance, SurveySpec.Config.Valid, After, Splits;
      if e.running.Some? && Lookup.Advance(e.running.value.cfg, e.running.value.query, last.now, QueryEvent(last.ev)).1.Finished? {
        TooFew(cfg, e.running.value, last.now, last.ev);
      }
    }
  }

  /** Where a survey can find enough to split the map of one region, its last answer can come when that region is
      due again. */
  lemma LargeBreaks(cfg: SurveySpec.Config)
    requires cfg.Valid() && Pow2(cfg.table.keyLen) > cfg.table.maxPopulation + 1
    ensures !WaitsAreBounded(cfg)
  {
    var nodes := RegionRuns.SomeKeys(cfg.table.maxPopulation + 1, cfg.table.keyLen, Some(cfg.self));
    KeysGiven(cfg, nodes);
    hide *;
    var s, t, i := Finds(cfg, nodes);
    var D := t + cfg.interval;
    var found, ev := FoundLast(cfg, s, t, nodes, i, D);
    NoneTwice(found);
    SplitsLate(cfg, s, t, nodes, found, ev, D);
    var broken := SplitBreaksBound(cfg, s, [Input(D, ev, Nothing())], D);
    Unbounded(cfg, s, t, broken, D);
  }

  lemma KeysGiven(cfg: SurveySpec.Config, nodes: seq<Bits>)
    requires forall i :: 0 <= i < |nodes| ==> |nodes[i]| == cfg.table.keyLen && Some(nodes[i]) != Some(cfg.self)
    requires Distinct(nodes) && cfg.Valid() && |nodes| == cfg.table.maxPopulation + 1
    ensures KeysOf(cfg.table, nodes) && cfg.self !in nodes && |nodes| > 0 && RegionRuns.OfRegion(nodes, [])
  {
  }

  lemma NoneTwice(found: seq<Bits>)
    requires RegionRuns.OfRegion(found, [])
    ensures Distinct(found)
  {
  }

  lemma SplitsLate(cfg: SurveySpec.Config, s: State, t: Instant, nodes: seq<Bits>, found: seq<Bits>, ev: Event, D: Instant)
    requires Surveying(cfg, s, t, nodes) && D == t + cfg.interval && D > 0 && Inv(cfg, s)
    requires cfg.Valid() && SurveySpec.ValidEvent(cfg, ev) && ValidSupply(cfg, Nothing()) && RunningOk(cfg, s.running.value)
    requires Distinct(found) && |nodes| == cfg.table.maxPopulation + 1 && Distinct(nodes) && Pow2(cfg.table.keyLen) > cfg.table.maxPopulation + 1
    requires forall k :: k in found <==> k in nodes
    requires exists q :: FinishesWith(cfg, s.running.value, D, ev, q, found)
    ensures s.seeded && From(cfg, [Input(D, ev, Nothing())], D) && SplitsOverdueIn(cfg, s, [Input(D, ev, Nothing())], D)
  {
    hide *;
    OneRegionDue(cfg, s, t, nodes);
    SameLength(found, nodes);
    FindSplits(cfg, s, D, ev, found);
    SplitsAtOnce(cfg, s, Input(D, ev, Nothing()), D);
  }

  lemma OneRegionDue(cfg: SurveySpec.Config, s: State, t: Instant, nodes: seq<Bits>)
    requires Surveying(cfg, s, t, nodes)
    ensures s.seeded && s.running.Some? && s.running.value.prefix == [] && [] in s.dues && s.dues[[]] == t + cfg.interval
  {
    hide Inv, RunsThrough;
  }

  lemma FindSplits(cfg: SurveySpec.Config, s: State, D: Instant, ev: Event, found: seq<Bits>)
    requires cfg.Valid() && s.running.Some? && RunningOk(cfg, s.running.value) && SurveySpec.ValidEvent(cfg, ev)
    requires s.running.value.prefix == [] && [] in s.dues && s.dues[[]] <= D
    requires exists q :: FinishesWith(cfg, s.running.value, D, ev, q, found)
    requires |found| == cfg.table.maxPopulation + 1 && Pow2(cfg.table.keyLen) > cfg.table.maxPopulation + 1
    ensures Lookup.ValidEvent(s.running.value.cfg, QueryEvent(ev)) && SplitsOverdue(cfg, s, D, ev, D)
  {
    assert cfg.table.keyLen > 0;
    hide RunningOk, Lookup.ValidEvent, Lookup.Advance, Pow2;
  }

  lemma SplitsAtOnce(cfg: SurveySpec.Config, s: State, x: Input, D: Instant)
    requires Inv(cfg, s) && x.now > 0 && SurveySpec.ValidEvent(cfg, x.ev) && ValidSupply(cfg, x.supply) && D <= x.now
    requires s.running.Some? ==> RunningOk(cfg, s.running.value) && Lookup.ValidEvent(s.running.value.cfg, QueryEvent(x.ev))
    requires SplitsOverdue(cfg, s, x.now, x.ev, D)
    ensures From(cfg, [x], D) && SplitsOverdueIn(cfg, s, [x], D)
  {
    hide Inv, RunningOk, ValidSupply, SurveySpec.ValidEvent, Lookup.ValidEvent, SplitsOverdue;
    assert [x][..0] == [];
    assert After(cfg, s, []) == s;
  }

  lemma Unbounded(cfg: SurveySpec.Config, s: State, t: Instant, broken: seq<Input>, D: Instant)
    requires Reached(cfg, s, t) && s.seeded && Inv(cfg, s) && t <= D && From(cfg, broken, D) && !KeepsBound(cfg, s, broken, D)
    ensures !WaitsAreBounded(cfg)
  {
    hide Reached, Inv, From, KeepsBound;
  }
}
