/** No region that is due waits for long: how many regions are due by a given time, and exactly when that
    number rises. */
module SurveyWait {
  import opened Keys
  import opened Clock
  import opened Options
  import opened RegionTable
  import opened RegionProofs
  import Lookup
  import opened Schedule
  import opened SurveySpec
  import opened SurveyProofs

  /** The regions due at D or before. */
  ghost function DueBy(dues: map<Bits, Instant>, D: Instant): set<Bits> {
    set p | p in dues && dues[p] <= D
  }

  /** The region that holds k is due at D or before. */
  ghost predicate Pending(s: State, k: Bits, D: Instant)
    requires DepthWithin(s.trie, |k|)
  {
    var p := LocatePrefix(s.trie, k);
    p in s.dues && s.dues[p] <= D
  }

  /** Regions without common prefixes that each cover one of R are no more than R. */
  lemma {:induction false} CoverCount(A: set<Bits>, R: set<Bits>)
    requires forall a, b :: a in A && b in A && a <= b ==> a == b
    requires forall a :: a in A ==> exists r :: r in R && a <= r
    ensures |A| <= |R|
    decreases A
  {
    if A != {} {
      var a :| a in A;
      var r :| r in R && a <= r;
      forall b | b in A - {a}
        ensures exists x :: x in R - {r} && b <= x
      {
        var x :| x in R && b <= x;
        Comparable(x, a, b);
        assert b in A && x != r;
        assert x in R - {r};
      }
      CoverCount(A - {a}, R - {r});
    }
  }

  /** A prefix-free set each of whose new elements covers one that left is no larger than the old one. */
  lemma NotRaised(W: set<Bits>, W': set<Bits>)
    requires forall a, b :: a in W' && b in W' && a <= b ==> a == b
    requires forall a :: a in W' - W ==> exists r :: r in W - W' && a <= r
    ensures |W'| <= |W|
  {
    CoverCount(W' - W, W - W');
    assert W == (W * W') + (W - W') && W' == (W * W') + (W' - W);
  }

  // ---------- Recording a survey ----------

  /** Recording a survey of region p does not raise the number of regions due by D when p is due later, or
      is not split. */
  lemma ObserveKeepsBound(cfg: SurveySpec.Config, was: Trie, dues: map<Bits, Instant>, p: Bits, members: seq<Bits>, now: Instant, D: Instant)
    requires cfg.Valid() && DepthWithin(was, cfg.table.keyLen) && Agrees(was, dues)
    requires Names(was, p) && KeysOf(cfg.table, members) && (dues[p] > D || !Splits(cfg.table, p, members))
    ensures var next := Observed(cfg.table, was, p, members, now);
      |DueBy(Rescheduled(was, next, dues), D)| <= |DueBy(dues, D)|
  {
    hide Rescheduled, Names, DepthWithin, Observed, KeysOf, Splits;
    var next := Observed(cfg.table, was, p, members, now);
    ObservedDepth(cfg.table, was, p, members, now);
    var d := Rescheduled(was, next, dues);
    RescheduledAgrees(was, next, dues, cfg.table.keyLen);
    var W, W' := DueBy(dues, D), DueBy(d, D);
    forall a | a in W' - W
      ensures exists r :: r in W - W' && a <= r
    {
      var r := NewlyDueCovers(cfg, was, dues, p, members, now, D, a);
      assert r in W - W';
    }
    forall a, b | a in W' && b in W' && a <= b
      ensures a == b
    {
      PrefixFree(next, a, b);
    }
    NotRaised(W, W');
  }

  /** A region that comes up due by D lies above a region that was due by D and is gone. */
  lemma NewlyDueCovers(cfg: SurveySpec.Config, was: Trie, dues: map<Bits, Instant>, p: Bits, members: seq<Bits>, now: Instant, D: Instant, a: Bits)
    returns (r: Bits)
    requires cfg.Valid() && DepthWithin(was, cfg.table.keyLen) && Agrees(was, dues)
    requires Names(was, p) && p in dues && KeysOf(cfg.table, members) && (dues[p] > D || !Splits(cfg.table, p, members))
    requires var next := Observed(cfg.table, was, p, members, now);
      var d := Rescheduled(was, next, dues);
      a in d && d[a] <= D && !(a in dues && dues[a] <= D && Names(next, a))
    ensures var next := Observed(cfg.table, was, p, members, now);
      r in dues && dues[r] <= D && !Names(next, r) && a <= r
  {
    hide *;
    var next := Observed(cfg.table, was, p, members, now);
    AppliedTo(cfg.table, was, p, members, now);
    ObserveDepth(cfg.table, was, p, 0, members, now);
    NewlyScheduled(cfg, was, next, dues, a, D);
    r := TakenOver(was, next, dues, cfg.table.keyLen, a);
    if dues[p] > D {
      DueAt(dues, p, r, D);
      var q := OnlySurveyedSplits(cfg.table, was, p, 0, members, now, r);
      AncestorOf(next, a, r, q);
    } else {
      Unsplit(cfg.table, p, members);
      var q := NothingFiner(cfg.table, was, p, 0, members, now, a);
      DescendantOf(was, a, r, q);
    }
  }

  lemma Unsplit(cfg: RegionTable.Config, p: Bits, members: seq<Bits>)
    requires !Splits(cfg, p, members)
    ensures |members| <= cfg.maxPopulation || 0 + |p| >= cfg.keyLen
  {
  }

  /** A region r related to a lies below a when some region does. */
  lemma DescendantOf(t: Trie, a: Bits, r: Bits, q: Bits)
    requires Names(t, r) && Names(t, q) && a <= q && Related(a, r)
    ensures a <= r
  {
    if r <= a {
      PrefixFree(t, r, q);
    }
  }

  lemma NewlyScheduled(cfg: SurveySpec.Config, was: Trie, next: Trie, dues: map<Bits, Instant>, a: Bits, D: Instant)
    requires DepthWithin(was, cfg.table.keyLen) && DepthWithin(next, cfg.table.keyLen) && Agrees(was, dues)
    requires var d := Rescheduled(was, next, dues);
      a in d && d[a] <= D && !(a in dues && dues[a] <= D && Names(next, a))
    ensures Names(next, a) && !Names(was, a)
  {
    RescheduledAgrees(was, next, dues, cfg.table.keyLen);
    hide Names, DepthWithin, Rescheduled;
  }

  lemma DueAt(dues: map<Bits, Instant>, p: Bits, r: Bits, D: Instant)
    requires p in dues && dues[p] > D && r in dues && dues[r] <= D
    ensures r != p
  {
  }

  /** A region a related to r lies above r when another region above r exists. */
  lemma AncestorOf(t: Trie, a: Bits, r: Bits, q: Bits)
    requires Names(t, a) && Names(t, q) && q <= r && Related(a, r)
    ensures a <= r
  {
    if r <= a {
      PrefixFree(t, q, a);
    }
  }

  /** Recording a survey that splits a region due by D raises the number: the parts are due with it. */
  lemma SplitRaises(cfg: SurveySpec.Config, was: Trie, dues: map<Bits, Instant>, p: Bits, members: seq<Bits>, now: Instant, D: Instant)
    requires cfg.Valid() && DepthWithin(was, cfg.table.keyLen) && Agrees(was, dues)
    requires Names(was, p) && KeysOf(cfg.table, members) && dues[p] <= D && Splits(cfg.table, p, members)
    ensures var next := Observed(cfg.table, was, p, members, now);
      |DueBy(Rescheduled(was, next, dues), D)| > |DueBy(dues, D)|
  {
    hide Rescheduled, Names, DepthWithin, Observed, KeysOf, Splits;
    var next := Observed(cfg.table, was, p, members, now);
    var d := Rescheduled(was, next, dues);
    var x := Part(cfg, was, dues, p, members, now, false);
    var y := Part(cfg, was, dues, p, members, now, true);
    var W, W' := DueBy(dues, D), DueBy(d, D);
    forall w | w in W && w != p
      ensures w in W'
    {
      Untouched(cfg, was, dues, p, members, now, w);
    }
    assert x !in W && y !in W && x != y;
    Larger(W - {p} + {x, y}, W');
  }

  /** One part of a split region: it is new, and due with the region. */
  lemma Part(cfg: SurveySpec.Config, was: Trie, dues: map<Bits, Instant>, p: Bits, members: seq<Bits>, now: Instant, b: bool) returns (x: Bits)
    requires cfg.Valid() && DepthWithin(was, cfg.table.keyLen) && Agrees(was, dues)
    requires Names(was, p) && p in dues && KeysOf(cfg.table, members) && Splits(cfg.table, p, members)
    ensures |x| > |p| && x[|p|] == b && !Names(was, x) && x !in dues
    ensures var d := Rescheduled(was, Observed(cfg.table, was, p, members, now), dues);
      x in d && d[x] == dues[p]
  {
    var parts := BuildLeaf(cfg.table, members, |p|, now);
    assert parts.Split?;
    var q := SomeName(Child(parts, b));
    NamesBelow(parts, [b] + q);
    x := p + [b] + q;
    assert x[|p|..] == [b] + q && ([b] + q)[1..] == q && p <= x;
    hide BuildLeaf, Names, DepthWithin, Rescheduled, Observed, KeysOf;
    SplitAlone(cfg.table, was, p, 0, members, now, x);
    AppliedTo(cfg.table, was, p, members, now);
    ObservedDepth(cfg.table, was, p, members, now);
    if Names(was, x) {
      PrefixFree(was, p, x);
    }
    SplitInheritsMergeTakesLeast(was, Observed(cfg.table, was, p, members, now), dues, cfg.table.keyLen, x);
  }

  /** Any other region stays, with its due time. */
  lemma Untouched(cfg: SurveySpec.Config, was: Trie, dues: map<Bits, Instant>, p: Bits, members: seq<Bits>, now: Instant, w: Bits)
    requires cfg.Valid() && DepthWithin(was, cfg.table.keyLen) && Agrees(was, dues)
    requires Names(was, p) && KeysOf(cfg.table, members) && Splits(cfg.table, p, members) && w in dues && w != p
    ensures var d := Rescheduled(was, Observed(cfg.table, was, p, members, now), dues);
      w in d && d[w] == dues[w]
  {
    hide BuildLeaf, Names, DepthWithin, Rescheduled, Observed, KeysOf;
    if p <= w {
      PrefixFree(was, p, w);
    }
    SplitAlone(cfg.table, was, p, 0, members, now, w);
    AppliedTo(cfg.table, was, p, members, now);
    ObservedDepth(cfg.table, was, p, members, now);
    RescheduledAgrees(was, Observed(cfg.table, was, p, members, now), dues, cfg.table.keyLen);
  }

  lemma Larger(a: set<Bits>, b: set<Bits>)
    requires a <= b
    ensures |a| <= |b|
  {
    assert b == a + (b - a);
  }

  /** Exactly when recording a survey of p raises the number of regions due by D: when p is itself due by D
      and is split. */
  lemma RaisedExactly(cfg: SurveySpec.Config, was: Trie, dues: map<Bits, Instant>, p: Bits, members: seq<Bits>, now: Instant, D: Instant)
    requires cfg.Valid() && DepthWithin(was, cfg.table.keyLen) && Agrees(was, dues)
    requires Names(was, p) && KeysOf(cfg.table, members)
    ensures var next := Observed(cfg.table, was, p, members, now);
      |DueBy(Rescheduled(was, next, dues), D)| > |DueBy(dues, D)|
      <==> dues[p] <= D && |p| < cfg.table.keyLen && |members| > cfg.table.maxPopulation
  {
    hide Rescheduled, Names, DepthWithin, Observed, KeysOf;
    if dues[p] <= D && Splits(cfg.table, p, members) {
      SplitRaises(cfg, was, dues, p, members, now, D);
    } else {
      ObserveKeepsBound(cfg, was, dues, p, members, now, D);
    }
  }

  /** The due time of a key's region carries over to the region that holds the key afterwards. */
  lemma StillPending(cfg: SurveySpec.Config, was: Trie, next: Trie, dues: map<Bits, Instant>, k: Bits)
    requires DepthWithin(was, |k|) && DepthWithin(next, |k|) && Agrees(was, dues)
    ensures LocatePrefix(was, k) in dues
    ensures var d := Rescheduled(was, next, dues);
      LocatePrefix(next, k) in d && d[LocatePrefix(next, k)] <= dues[LocatePrefix(was, k)]
  {
    Tiling(was, k);
    Tiling(next, k);
    RescheduledAgrees(was, next, dues, |k|);
    var g, q := LocatePrefix(was, k), LocatePrefix(next, k);
    hide Rescheduled, Names, DepthWithin, LocatePrefix;
    Comparable(k, g, q);
    if !Names(was, q) {
      NoLater(was, next, dues, |k|, q, g);
    }
  }

  // ---------- One advance ----------

  /** The query of the survey under way finishes, with enough found to split a region that is due by D. */
  ghost predicate QuerySplits(cfg: SurveySpec.Config, s: State, r: Running, now: Instant, ev: Lookup.Event, D: Instant)
    requires RunningOk(cfg, r) && Lookup.ValidEvent(r.cfg, ev)
  {
    var out := Lookup.Advance(r.cfg, r.query, now, ev).1;
    out.Finished? && r.prefix in s.dues && s.dues[r.prefix] <= D && Splits(cfg.table, r.prefix, out.results)
  }

  /** The advance records a survey that splits its region although that was due again by D. */
  ghost predicate SplitsOverdue(cfg: SurveySpec.Config, s: State, now: Instant, ev: Event, D: Instant)
    requires s.running.Some? ==> RunningOk(cfg, s.running.value) && Lookup.ValidEvent(s.running.value.cfg, QueryEvent(ev))
  {
    s.running.Some? && QuerySplits(cfg, s, s.running.value, now, QueryEvent(ev), D)
  }

  lemma EventFits(cfg: SurveySpec.Config, s: State, ev: Event)
    requires Inv(cfg, s) && SurveySpec.ValidEvent(cfg, ev)
    ensures s.running.Some? ==> RunningOk(cfg, s.running.value) && Lookup.ValidEvent(s.running.value.cfg, QueryEvent(ev))
  {
  }

  lemma QueryRaisesExactly(cfg: SurveySpec.Config, s: State, r: Running, now: Instant, ev: Lookup.Event, D: Instant)
    requires cfg.Valid() && DepthWithin(s.trie, cfg.table.keyLen) && Agrees(s.trie, s.dues) && now > 0
    requires RunningOk(cfg, r) && Names(s.trie, r.prefix) && Lookup.ValidEvent(r.cfg, ev)
    ensures |DueBy(AdvanceQuery(cfg, s, r, now, ev).0.dues, D)| > |DueBy(s.dues, D)| <==> QuerySplits(cfg, s, r, now, ev, D)
  {
    hide AdvanceQuery, RunningOk, Names, DepthWithin, Observed, Rescheduled, KeysOf, Lookup.ValidEvent, Lookup.Advance;
    var r', members := QueryCases(cfg, s, r, now, ev);
    RaisedExactly(cfg, s.trie, s.dues, r.prefix, members, now, D);
  }

  lemma QueryKeepsPending(cfg: SurveySpec.Config, s: State, r: Running, now: Instant, ev: Lookup.Event, k: Bits, D: Instant)
    requires cfg.Valid() && DepthWithin(s.trie, cfg.table.keyLen) && s.seeded && Agrees(s.trie, s.dues) && now > 0
    requires RunningOk(cfg, r) && Names(s.trie, r.prefix) && Lookup.ValidEvent(r.cfg, ev)
    requires |k| == cfg.table.keyLen && Pending(s, k, D)
    ensures var s' := AdvanceQuery(cfg, s, r, now, ev).0; Inv(cfg, s') && s'.seeded && Pending(s', k, D)
  {
    AdvanceQueryKeepsInv(cfg, s, r, now, ev);
    hide AdvanceQuery, RunningOk, Names, DepthWithin, Observed, Rescheduled, KeysOf, Lookup.ValidEvent;
    var r', members := QueryCases(cfg, s, r, now, ev);
    var next := Observed(cfg.table, s.trie, r.prefix, members, now);
    ObservedDepth(cfg.table, s.trie, r.prefix, members, now);
    StillPending(cfg, s.trie, next, s.dues, k);
  }

  /** Exactly when an advance at or after D raises the number of regions due by D. */
  lemma StepRaisesExactly(cfg: SurveySpec.Config, s: State, now: Instant, ev: Event, supply: Supply, D: Instant)
    requires Inv(cfg, s) && s.seeded && now > 0 && SurveySpec.ValidEvent(cfg, ev) && ValidSupply(cfg, supply) && D <= now
    ensures s.running.Some? ==> RunningOk(cfg, s.running.value) && Lookup.ValidEvent(s.running.value.cfg, QueryEvent(ev))
    ensures |DueBy(SurveySpec.Advance(cfg, s, now, ev, supply).0.dues, D)| > |DueBy(s.dues, D)| <==> SplitsOverdue(cfg, s, now, ev, D)
  {
    EventFits(cfg, s, ev);
    hide AdvanceQuery, RunningOk, Names, DepthWithin, QuerySplits;
    if s.running.Some? {
      QueryRaisesExactly(cfg, s, s.running.value, now, QueryEvent(ev), D);
    } else if Picked(cfg, s, now).Some? {
      StartDoesNotRaise(cfg, s, now, ev, supply, D);
    }
  }

  lemma StartDoesNotRaise(cfg: SurveySpec.Config, s: State, now: Instant, ev: Event, supply: Supply, D: Instant)
    requires Inv(cfg, s) && s.seeded && now > 0 && SurveySpec.ValidEvent(cfg, ev) && ValidSupply(cfg, supply) && D <= now
    requires s.running.None? && Picked(cfg, s, now).Some?
    ensures |DueBy(SurveySpec.Advance(cfg, s, now, ev, supply).0.dues, D)| <= |DueBy(s.dues, D) - {First(s.dues)}|
  {
    hide AdvanceQuery, RunningOk, Names, DepthWithin;
    var p := First(s.dues);
    var s2 := PutOff(cfg, s, p, now);
    PutOffCount(cfg, s, p, now, D);
    if supply.mint(p).Some? {
      QueryRaisesExactly(cfg, s2, Launched(cfg, p, supply), now, Lookup.Poll, D);
    }
  }

  lemma PutOffCount(cfg: SurveySpec.Config, s: State, p: Bits, now: Instant, D: Instant)
    requires Inv(cfg, s) && s.seeded && p in s.dues && D <= now
    ensures var s2 := PutOff(cfg, s, p, now);
      && Agrees(s2.trie, s2.dues) && Names(s2.trie, p) && s2.dues[p] > D
      && DueBy(s2.dues, D) == DueBy(s.dues, D) - {p}
  {
    hide RunningOk, Names, DepthWithin;
  }

  /** By how much an advance raises the number of regions due by D: not at all, unless it splits one. */
  ghost function Rise(cfg: SurveySpec.Config, s: State, now: Instant, ev: Event, supply: Supply, D: Instant): nat
    requires Inv(cfg, s) && SurveySpec.ValidEvent(cfg, ev) && ValidSupply(cfg, supply)
  {
    EventFits(cfg, s, ev);
    var before, after := |DueBy(s.dues, D)|, |DueBy(SurveySpec.Advance(cfg, s, now, ev, supply).0.dues, D)|;
    if SplitsOverdue(cfg, s, now, ev, D) && after > before then after - before else 0
  }

  /** One advance at or after D: unless it picks the region holding k itself, k's region stays due by D,
      and the number of regions due by D drops by one with every region picked and rises only where a
      region due by D is split. */
  lemma StepKeepsBound(cfg: SurveySpec.Config, s: State, now: Instant, ev: Event, supply: Supply, k: Bits, D: Instant)
    requires Inv(cfg, s) && s.seeded && now > 0 && SurveySpec.ValidEvent(cfg, ev) && ValidSupply(cfg, supply)
    requires |k| == cfg.table.keyLen && Pending(s, k, D) && D <= now
    requires Picked(cfg, s, now) != Some(LocatePrefix(s.trie, k))
    ensures var s' := SurveySpec.Advance(cfg, s, now, ev, supply).0;
      && Inv(cfg, s') && s'.seeded && Pending(s', k, D)
      && |DueBy(s'.dues, D)| + (if Picked(cfg, s, now).Some? then 1 else 0) <= |DueBy(s.dues, D)| + Rise(cfg, s, now, ev, supply, D)
  {
    EventFits(cfg, s, ev);
    StepRaisesExactly(cfg, s, now, ev, supply, D);
    StepKeepsPending(cfg, s, now, ev, supply, k, D);
    hide AdvanceQuery, RunningOk, Names, DepthWithin, LocatePrefix, QuerySplits;
    if Picked(cfg, s, now).Some? {
      FirstCounts(s, now, k, D);
      StartDoesNotRaise(cfg, s, now, ev, supply, D);
    }
  }

  /** The region picked is due by D, for it comes before k's. */
  lemma FirstCounts(s: State, now: Instant, k: Bits, D: Instant)
    requires DepthWithin(s.trie, |k|) && Pending(s, k, D) && s.dues != map[]
    ensures First(s.dues) in DueBy(s.dues, D)
  {
    hide DepthWithin, LocatePrefix;
    var g, p := LocatePrefix(s.trie, k), First(s.dues);
    assert !DueLess(Due(s.dues[g], g), Due(s.dues[p], p));
  }

  lemma StepKeepsPending(cfg: SurveySpec.Config, s: State, now: Instant, ev: Event, supply: Supply, k: Bits, D: Instant)
    requires Inv(cfg, s) && s.seeded && now > 0 && SurveySpec.ValidEvent(cfg, ev) && ValidSupply(cfg, supply)
    requires |k| == cfg.table.keyLen && Pending(s, k, D)
    requires Picked(cfg, s, now) != Some(LocatePrefix(s.trie, k))
    ensures var s' := SurveySpec.Advance(cfg, s, now, ev, supply).0; Inv(cfg, s') && s'.seeded && Pending(s', k, D)
  {
    EventFits(cfg, s, ev);
    hide AdvanceQuery, RunningOk, Names, DepthWithin, LocatePrefix;
    if s.running.Some? {
      QueryKeepsPending(cfg, s, s.running.value, now, QueryEvent(ev), k, D);
    } else if Picked(cfg, s, now).Some? {
      var p := First(s.dues);
      PutOffCount(cfg, s, p, now, 0);
      if supply.mint(p).Some? {
        QueryKeepsPending(cfg, PutOff(cfg, s, p, now), Launched(cfg, p, supply), now, Lookup.Poll, k, D);
      }
    }
  }

  // ---------- Runs ----------

  /** The regions a run picks to survey, in order. */
  ghost function AllPicked(cfg: SurveySpec.Config, s: State, ins: seq<Input>): seq<Bits>
    requires Inv(cfg, s) && ValidInputs(cfg, ins)
    decreases |ins|
  {
    if |ins| == 0 then [] else
    var picked := Picked(cfg, After(cfg, s, ins[..|ins| - 1]), ins[|ins| - 1].now);
    AllPicked(cfg, s, ins[..|ins| - 1]) + (if picked.Some? then [picked.value] else [])
  }

  /** Whether some step of a run picks the region that holds k at that step. */
  ghost predicate PicksRegionOf(cfg: SurveySpec.Config, s: State, ins: seq<Input>, k: Bits)
    requires Inv(cfg, s) && ValidInputs(cfg, ins) && |k| == cfg.table.keyLen
    decreases |ins|
  {
    |ins| > 0 &&
    (|| PicksRegionOf(cfg, s, ins[..|ins| - 1], k)
     || Picked(cfg, After(cfg, s, ins[..|ins| - 1]), ins[|ins| - 1].now)
        == Some(LocatePrefix(After(cfg, s, ins[..|ins| - 1]).trie, k)))
  }

  /** By how much a run raises the number of regions due by D, in all. */
  ghost function Raised(cfg: SurveySpec.Config, s: State, ins: seq<Input>, D: Instant): nat
    requires Inv(cfg, s) && ValidInputs(cfg, ins)
    decreases |ins|
  {
    if |ins| == 0 then 0 else
    var init, last := ins[..|ins| - 1], ins[|ins| - 1];
    Raised(cfg, s, init, D) + Rise(cfg, After(cfg, s, init), last.now, last.ev, last.supply, D)
  }

  lemma {:induction false} RunKeepsBound(cfg: SurveySpec.Config, s: State, ins: seq<Input>, k: Bits, D: Instant)
    requires Inv(cfg, s) && s.seeded && ValidInputs(cfg, ins) && |k| == cfg.table.keyLen
    requires Pending(s, k, D) && forall i :: 0 <= i < |ins| ==> D <= ins[i].now
    requires !PicksRegionOf(cfg, s, ins, k)
    ensures var e := After(cfg, s, ins);
      && e.seeded && Pending(e, k, D)
      && |DueBy(e.dues, D)| + |AllPicked(cfg, s, ins)| <= |DueBy(s.dues, D)| + Raised(cfg, s, ins, D)
    decreases |ins|
  {
    if |ins| > 0 {
      var init, last := ins[..|ins| - 1], ins[|ins| - 1];
      RunKeepsBound(cfg, s, init, k, D);
      StepKeepsBound(cfg, After(cfg, s, init), last.now, last.ev, last.supply, k, D);
    }
  }

  /** Bounded wait. Once the region holding k is due, at D, fewer surveys of other regions are started
      before one of k's region than there are regions due by D and come to be by splits of regions that
      are, whatever else is split or merged meanwhile, k's own region included. */
  lemma BoundedWait(cfg: SurveySpec.Config, s: State, ins: seq<Input>, k: Bits, D: Instant)
    requires Inv(cfg, s) && s.seeded && ValidInputs(cfg, ins) && |k| == cfg.table.keyLen
    requires Pending(s, k, D) && forall i :: 0 <= i < |ins| ==> D <= ins[i].now
    ensures PicksRegionOf(cfg, s, ins, k) || |AllPicked(cfg, s, ins)| < |DueBy(s.dues, D)| + Raised(cfg, s, ins, D)
    ensures !SplitsOverdueIn(cfg, s, ins, D) ==> PicksRegionOf(cfg, s, ins, k) || |AllPicked(cfg, s, ins)| < |DueBy(s.dues, D)|
  {
    NeverRaised(cfg, s, ins, D);
    if !PicksRegionOf(cfg, s, ins, k) {
      RunKeepsBound(cfg, s, ins, k, D);
      var e := After(cfg, s, ins);
      assert LocatePrefix(e.trie, k) in DueBy(e.dues, D);
      assert DueBy(e.dues, D) != {};
    }
  }

  /** Whether some step of a run splits a region that is due by D. */
  ghost predicate SplitsOverdueIn(cfg: SurveySpec.Config, s: State, ins: seq<Input>, D: Instant)
    requires Inv(cfg, s) && ValidInputs(cfg, ins)
    decreases |ins|
  {
    |ins| > 0 &&
    var init, last := ins[..|ins| - 1], ins[|ins| - 1];
    EventFits(cfg, After(cfg, s, init), last.ev);
    SplitsOverdueIn(cfg, s, init, D) || SplitsOverdue(cfg, After(cfg, s, init), last.now, last.ev, D)
  }

  /** A run raises the number exactly when some step of it splits a region that is due. */
  lemma {:induction false} NeverRaised(cfg: SurveySpec.Config, s: State, ins: seq<Input>, D: Instant)
    requires Inv(cfg, s) && s.seeded && ValidInputs(cfg, ins) && forall i :: 0 <= i < |ins| ==> D <= ins[i].now
    ensures Raised(cfg, s, ins, D) == 0 <==> !SplitsOverdueIn(cfg, s, ins, D)
    ensures After(cfg, s, ins).seeded
    decreases |ins|
  {
    if |ins| > 0 {
      var init, last := ins[..|ins| - 1], ins[|ins| - 1];
      NeverRaised(cfg, s, init, D);
      StepRaisesExactly(cfg, After(cfg, s, init), last.now, last.ev, last.supply, D);
      ScheduleAgrees(cfg, After(cfg, s, init), last.now, last.ev, last.supply);
    }
  }

  /** The survey under way, if any, is of a region not due again until after D. */
  ghost predicate Clear(s: State, D: Instant) {
    s.running.Some? ==> s.running.value.prefix in s.dues && s.dues[s.running.value.prefix] > D
  }

  /** A run that starts with no survey under way, or one of a region not due again until after D, never
      splits a region due by D, so its bound is the number of regions due at the start. */
  lemma {:induction false} ClearRuns(cfg: SurveySpec.Config, s: State, ins: seq<Input>, D: Instant)
    requires Inv(cfg, s) && s.seeded && ValidInputs(cfg, ins) && forall i :: 0 <= i < |ins| ==> D <= ins[i].now
    requires Clear(s, D)
    ensures !SplitsOverdueIn(cfg, s, ins, D)
    ensures After(cfg, s, ins).seeded && Clear(After(cfg, s, ins), D)
    decreases |ins|
  {
    if |ins| > 0 {
      var init, last := ins[..|ins| - 1], ins[|ins| - 1];
      ClearRuns(cfg, s, init, D);
      ClearStep(cfg, After(cfg, s, init), last.now, last.ev, last.supply, D);
      ScheduleAgrees(cfg, After(cfg, s, init), last.now, last.ev, last.supply);
    }
  }

  lemma ClearStep(cfg: SurveySpec.Config, s: State, now: Instant, ev: Event, supply: Supply, D: Instant)
    requires Inv(cfg, s) && s.seeded && now > 0 && SurveySpec.ValidEvent(cfg, ev) && ValidSupply(cfg, supply) && D <= now
    requires Clear(s, D)
    ensures s.running.Some? ==> RunningOk(cfg, s.running.value) && Lookup.ValidEvent(s.running.value.cfg, QueryEvent(ev))
    ensures !SplitsOverdue(cfg, s, now, ev, D) && Clear(SurveySpec.Advance(cfg, s, now, ev, supply).0, D)
  {
    EventFits(cfg, s, ev);
    hide AdvanceQuery, RunningOk, Names, DepthWithin, Lookup.ValidEvent, Lookup.Advance, Rescheduled, Observed, KeysOf;
    if s.running.Some? {
      var r', members := QueryCases(cfg, s, s.running.value, now, QueryEvent(ev));
    } else if Picked(cfg, s, now).Some? {
      var p := First(s.dues);
      PutOffCount(cfg, s, p, now, D);
      if supply.mint(p).Some? {
        var r', members := QueryCases(cfg, PutOff(cfg, s, p, now), Launched(cfg, p, supply), now, Lookup.Poll);
      }
    }
  }
}
