/** Runs of surveys that lead somewhere: to a map of one region, and to any find in it. */
module SurveyReach {
  import opened Keys
  import opened Clock
  import opened Options
  import opened RegionTable
  import opened RegionProofs
  import RegionRuns
  import Lookup
  import LookupProofs
  import opened LookupAnswers
  import LookupResults
  import PoolProofs
  import Query
  import opened Schedule
  import opened SurveySpec
  import opened SurveyProofs

  // ---------- States that runs lead to ----------

  /** Time does not go back. */
  predicate InOrder(ins: seq<Input>) {
    forall i, j :: 0 <= i < j < |ins| ==> ins[i].now <= ins[j].now
  }

  /** From the start the inputs lead to s, the last of them no later than t. */
  ghost predicate LeadsTo(cfg: SurveySpec.Config, ins: seq<Input>, s: State, t: Instant) {
    && cfg.Valid() && ValidInputs(cfg, ins) && InOrder(ins) && (forall i :: 0 <= i < |ins| ==> ins[i].now <= t)
    && Inv(cfg, Initial(cfg)) && After(cfg, Initial(cfg), ins) == s
  }

  ghost predicate Reached(cfg: SurveySpec.Config, s: State, t: Instant) {
    exists ins :: LeadsTo(cfg, ins, s, t)
  }

  lemma ReachedOk(cfg: SurveySpec.Config, s: State, t: Instant)
    requires Reached(cfg, s, t)
    ensures Inv(cfg, s)
  {
    var ins :| LeadsTo(cfg, ins, s, t);
    hide Inv;
  }

  lemma Step(cfg: SurveySpec.Config, s: State, t: Instant, now: Instant, ev: Event, supply: Supply)
    requires Reached(cfg, s, t) && t <= now && now > 0 && SurveySpec.ValidEvent(cfg, ev) && ValidSupply(cfg, supply)
    ensures Inv(cfg, s) && Inv(cfg, SurveySpec.Advance(cfg, s, now, ev, supply).0)
    ensures Reached(cfg, SurveySpec.Advance(cfg, s, now, ev, supply).0, now)
  {
    ReachedOk(cfg, s, t);
    ScheduleAgrees(cfg, s, now, ev, supply);
    hide Inv, SurveySpec.Advance, LeadsTo;
    var ins :| LeadsTo(cfg, ins, s, t);
    OneMore(cfg, ins, s, t, Input(now, ev, supply));
  }

  lemma OneMore(cfg: SurveySpec.Config, ins: seq<Input>, s: State, t: Instant, last: Input)
    requires LeadsTo(cfg, ins, s, t) && t <= last.now && last.now > 0
    requires Inv(cfg, s) && SurveySpec.ValidEvent(cfg, last.ev) && ValidSupply(cfg, last.supply)
    ensures LeadsTo(cfg, ins + [last], SurveySpec.Advance(cfg, s, last.now, last.ev, last.supply).0, last.now)
  {
    var more := ins + [last];
    assert forall i :: 0 <= i < |more| ==> more[i] == if i < |ins| then ins[i] else last;
    hide Inv, SurveySpec.Advance, SurveySpec.ValidEvent, ValidSupply, SurveySpec.Config.Valid, After;
    assert ValidInputs(cfg, more);
    LastInput(cfg, Initial(cfg), more);
    assert more[..|ins|] == ins;
  }

  lemma AtStart(cfg: SurveySpec.Config)
    requires cfg.Valid()
    ensures Reached(cfg, Initial(cfg), 0) && Inv(cfg, Initial(cfg))
  {
    InitialOk(cfg);
    hide Inv;
    assert LeadsTo(cfg, [], Initial(cfg), 0);
  }

  // ---------- Surveys that find nobody ----------

  function Nothing(): Supply {
    Supply((p: Bits) => None, [])
  }

  /** A key in every region, and the given nodes to ask. */
  function Asking(cfg: SurveySpec.Config, seeds: seq<Bits>): Supply {
    Supply((p: Bits) => if |p| <= cfg.table.keyLen then Some(Padded(p, cfg.table.keyLen)) else None, seeds)
  }

  lemma SuppliesOk(cfg: SurveySpec.Config, seeds: seq<Bits>)
    requires |seeds| <= cfg.walkInBound && forall i :: 0 <= i < |seeds| ==> |seeds[i]| == cfg.table.keyLen
    ensures ValidSupply(cfg, Nothing()) && ValidSupply(cfg, Asking(cfg, seeds)) && SurveySpec.ValidEvent(cfg, Poll)
  {
  }

  /** A poll with nothing to draw on puts the region picked off and does no more. */
  lemma PollFails(cfg: SurveySpec.Config, s: State, now: Instant)
    requires Inv(cfg, s) && s.running.None? && now > 0
    ensures ValidSupply(cfg, Nothing()) && SurveySpec.ValidEvent(cfg, Poll)
    ensures var s1, s' := Seeded(cfg, s, now), SurveySpec.Advance(cfg, s, now, Poll, Nothing()).0;
      && (Picked(cfg, s, now).None? ==> s' == s1)
      && (Picked(cfg, s, now).Some? ==> s' == PutOff(cfg, s1, Picked(cfg, s, now).value, now))
  {
    hide Inv, Seeded;
  }

  /** The schedule after the first poll. */
  lemma AfterFirst(cfg: SurveySpec.Config) returns (s: State)
    requires cfg.Valid()
    ensures Reached(cfg, s, 1) && Inv(cfg, s) && s.seeded && s.running.None? && s.trie == BuildTrie(cfg.table.initialPrefixLen)
    ensures forall p :: p in s.dues ==> s.dues[p] <= 1 + cfg.interval
  {
    AtStart(cfg);
    SuppliesOk(cfg, []);
    SeededAgrees(cfg, Initial(cfg), 1);
    PollFails(cfg, Initial(cfg), 1);
    Step(cfg, Initial(cfg), 0, 1, Poll, Nothing());
    s := SurveySpec.Advance(cfg, Initial(cfg), 1, Poll, Nothing()).0;
    hide Inv, SurveySpec.Advance, Seeded, Agrees;
  }

  /** A survey with nobody to ask finds nobody, at once. */
  lemma PollFindsNobody(cfg: SurveySpec.Config, s: State, p: Bits, now: Instant)
    requires Inv(cfg, s) && s.seeded && s.running.None? && now > 0 && p in s.dues && Picked(cfg, s, now) == Some(p)
    ensures ValidSupply(cfg, Asking(cfg, [])) && SurveySpec.ValidEvent(cfg, Poll) && KeysOf(cfg.table, [])
    ensures SurveySpec.Advance(cfg, s, now, Poll, Asking(cfg, [])).0 == Recorded(cfg, PutOff(cfg, s, p, now), p, [], now)
  {
    SuppliesOk(cfg, []);
    NamesWithin(s.trie, p, cfg.table.keyLen);
    var s2, r := PutOff(cfg, s, p, now), Launched(cfg, p, Asking(cfg, []));
    NobodyFound(cfg, r, now);
    hide Lookup.Advance, RunningOk, Launched, Observed, Rescheduled, Names, DepthWithin;
    assert AdvanceQuery(cfg, s2, r, now, Lookup.Poll).0 == Recorded(cfg, s2, p, [], now);
  }

  lemma NobodyFound(cfg: SurveySpec.Config, r: Running, now: Instant)
    requires cfg.Valid() && RunningOk(cfg, r) && r.query.nodes == []
    ensures Lookup.ValidEvent(r.cfg, Lookup.Poll)
    ensures var out := Lookup.Advance(r.cfg, r.query, now, Lookup.Poll).1; out.Finished? && out.results == []
  {
    var q := r.query;
    LookupProofs.RunningAdvance(r.cfg, q, now, Lookup.Poll);
    assert Lookup.StopIndex(r.cfg, now, q, 0) == 0;
    Query.WalkRunsOut(r.cfg, now, q);
    assert Lookup.Swept(now, q, 0).nodes == [] && Lookup.Swept(now, q, 0).inFlight == 0;
    hide Lookup.StopIndex, Lookup.Swept, Lookup.Walk, Lookup.Advance;
  }

  // ---------- A map of one region ----------

  /** An empty map in normal form, in which the regions due by t are those no survey has reported on. */
  ghost predicate Sweeping(cfg: SurveySpec.Config, s: State, t: Instant) {
    && Inv(cfg, s) && s.seeded && s.running.None?
    && Normal(cfg.table, s.trie, 0) && Population(s.trie) == 0
    && forall p :: p in s.dues ==> Names(s.trie, p) && (LeafAt(s.trie, p).value.surveyed == 0 <==> s.dues[p] <= t)
  }

  /** One more region is surveyed and nobody found. */
  lemma Sweep(cfg: SurveySpec.Config, s: State, t: Instant) returns (s': State)
    requires Sweeping(cfg, s, t) && Reached(cfg, s, t) && t > 0 && RegionRuns.Unsurveyed(s.trie) > 0
    ensures Sweeping(cfg, s', t) && Reached(cfg, s', t)
    ensures RegionRuns.Unsurveyed(s'.trie) + 1 == RegionRuns.Unsurveyed(s.trie)
  {
    hide *;
    var p := PicksUnsurveyed(cfg, s, t);
    PollFindsNobody(cfg, s, p, t);
    Step(cfg, s, t, t, Poll, Asking(cfg, []));
    s' := SurveySpec.Advance(cfg, s, t, Poll, Asking(cfg, [])).0;
    Swept(cfg, s, p, t);
  }

  lemma PicksUnsurveyed(cfg: SurveySpec.Config, s: State, t: Instant) returns (p: Bits)
    requires Sweeping(cfg, s, t) && RegionRuns.Unsurveyed(s.trie) > 0
    ensures cfg.Valid() && Inv(cfg, s) && s.seeded && s.running.None?
    ensures p in s.dues && Picked(cfg, s, t) == Some(p) && s.dues[p] <= t
    ensures Names(s.trie, p) && LeafAt(s.trie, p).value.surveyed == 0
  {
    var q := RegionRuns.SomeUnsurveyed(s.trie);
    hide Names, DepthWithin, RunningOk, RegionRuns.Unsurveyed, Normal, Population;
    assert q in s.dues && s.dues[q] <= t;
    p := First(s.dues);
    assert !DueLess(Due(s.dues[q], q), Due(s.dues[p], p));
  }

  lemma Swept(cfg: SurveySpec.Config, s: State, p: Bits, t: Instant)
    requires Sweeping(cfg, s, t) && p in s.dues && t > 0 && KeysOf(cfg.table, [])
    requires Names(s.trie, p) && LeafAt(s.trie, p).value.surveyed == 0
    requires Inv(cfg, Recorded(cfg, PutOff(cfg, s, p, t), p, [], t))
    ensures var s' := Recorded(cfg, PutOff(cfg, s, p, t), p, [], t);
      Sweeping(cfg, s', t) && RegionRuns.Unsurveyed(s'.trie) + 1 == RegionRuns.Unsurveyed(s.trie)
  {
    var s2 := PutOff(cfg, s, p, t);
    var s' := Recorded(cfg, s2, p, [], t);
    RegionRuns.EmptyReport(cfg.table, s.trie, p, 0, t);
    hide Names, DepthWithin, RunningOk, RegionRuns.Unsurveyed, Normal, Population, Rescheduled, ObserveNode, LeafAt;
    forall a | a in s'.dues
      ensures Names(s'.trie, a) && (LeafAt(s'.trie, a).value.surveyed == 0 <==> s'.dues[a] <= t)
    {
      SweptRegion(cfg, s, p, t, a);
    }
  }

  /** A region is as it was, or has been surveyed and is due later. */
  lemma SweptRegion(cfg: SurveySpec.Config, s: State, p: Bits, t: Instant, a: Bits)
    requires Sweeping(cfg, s, t) && p in s.dues && t > 0 && KeysOf(cfg.table, []) && Names(s.trie, p)
    requires Inv(cfg, Recorded(cfg, PutOff(cfg, s, p, t), p, [], t))
    requires a in Recorded(cfg, PutOff(cfg, s, p, t), p, [], t).dues
    ensures var s' := Recorded(cfg, PutOff(cfg, s, p, t), p, [], t);
      Names(s'.trie, a) && (LeafAt(s'.trie, a).value.surveyed == 0 <==> s'.dues[a] <= t)
  {
    var s2 := PutOff(cfg, s, p, t);
    var s' := Recorded(cfg, s2, p, [], t);
    var n := cfg.table.keyLen;
    hide *;
    SweepFacts(cfg, s, p, t);
    AppliedTo(cfg.table, s.trie, p, [], t);
    ScheduledIsNamed(cfg, s', a);
    NamesWithin(s.trie, p, n);
    EveryRegionAfter(cfg.table, s.trie, p, 0, [], t, a);
    MergedWereSurveyed(cfg.table, s.trie, p, 0, [], t, a);
    if Names(s.trie, a) {
      RescheduledAgrees(s.trie, s'.trie, s2.dues, n);
      KeptRegion(cfg, s, p, t, a);
    } else {
      NotBelow(cfg, s, p, t, a);
      var r := TakenOver(s.trie, s'.trie, s2.dues, n, a);
      MergedWereSurveyed(cfg.table, s.trie, p, 0, [], t, r);
      DueLater(cfg, s, p, t, r);
    }
  }

  lemma SweepFacts(cfg: SurveySpec.Config, s: State, p: Bits, t: Instant)
    requires Sweeping(cfg, s, t) && p in s.dues && t > 0 && KeysOf(cfg.table, []) && Names(s.trie, p)
    requires Inv(cfg, Recorded(cfg, PutOff(cfg, s, p, t), p, [], t))
    ensures var s2 := PutOff(cfg, s, p, t);
      var s' := Recorded(cfg, s2, p, [], t);
      && DepthWithin(s.trie, cfg.table.keyLen) && DepthWithin(s'.trie, cfg.table.keyLen) && Agrees(s.trie, s2.dues)
      && s2.trie == s.trie && s'.seeded && s'.trie == Observed(cfg.table, s.trie, p, [], t)
      && s'.dues == Rescheduled(s.trie, s'.trie, s2.dues)
  {
    hide Names, DepthWithin, RunningOk, Normal, Population, Rescheduled, Observed, LeafAt;
  }

  lemma ScheduledIsNamed(cfg: SurveySpec.Config, s: State, a: Bits)
    requires Inv(cfg, s) && s.seeded && a in s.dues
    ensures Names(s.trie, a) && LeafAt(s.trie, a).Some?
  {
    hide DepthWithin, RunningOk;
  }

  lemma KeptRegion(cfg: SurveySpec.Config, s: State, p: Bits, t: Instant, a: Bits)
    requires Sweeping(cfg, s, t) && p in s.dues && t > 0 && Names(s.trie, p) && Names(s.trie, a)
    requires KeysOf(cfg.table, [])
    requires var s2 := PutOff(cfg, s, p, t);
      var s' := Recorded(cfg, s2, p, [], t);
      && a in s'.dues && Names(s'.trie, a) && a in s2.dues && s'.dues[a] == s2.dues[a]
      && (if p <= a then LeafAt(s'.trie, a).value.surveyed == t
          else if a <= p then true else LeafAt(s'.trie, a) == LeafAt(s.trie, a))
    ensures var s' := Recorded(cfg, PutOff(cfg, s, p, t), p, [], t);
      LeafAt(s'.trie, a).value.surveyed == 0 <==> s'.dues[a] <= t
  {
    IntervalPositive(cfg, s);
    hide DepthWithin, RunningOk, Normal, Population, Recorded, LeafAt, Inv, Names;
    if p <= a {
      PrefixFree(s.trie, p, a);
      assert PutOff(cfg, s, p, t).dues[a] == t + cfg.interval;
      assert Recorded(cfg, PutOff(cfg, s, p, t), p, [], t).dues[a] == t + cfg.interval;
      assert LeafAt(Recorded(cfg, PutOff(cfg, s, p, t), p, [], t).trie, a).value.surveyed == t;
      assert LeafAt(Recorded(cfg, PutOff(cfg, s, p, t), p, [], t).trie, a).value.surveyed != 0;
      assert !(Recorded(cfg, PutOff(cfg, s, p, t), p, [], t).dues[a] <= t);
    } else if a <= p {
      PrefixFree(s.trie, a, p);
    } else {
      assert PutOff(cfg, s, p, t).dues[a] == s.dues[a];
    }
  }

  lemma IntervalPositive(cfg: SurveySpec.Config, s: State)
    requires Inv(cfg, s)
    ensures cfg.interval > 0
  {
  }

  /** Below a region where nobody was found there is no other. */
  lemma NotBelow(cfg: SurveySpec.Config, s: State, p: Bits, t: Instant, a: Bits)
    requires KeysOf(cfg.table, []) && Names(s.trie, p) && !Names(s.trie, a)
    requires ObserveNode(cfg.table, s.trie, p, 0, [], t).Some? && Names(ObserveNode(cfg.table, s.trie, p, 0, [], t).value, a)
    ensures !(p <= a)
  {
    var q := NothingFiner(cfg.table, s.trie, p, 0, [], t, a);
    hide ObserveNode, LeafAt, KeysOf;
    assert p <= a && p == q ==> a == p;
    if p <= a {
      PrefixFree(s.trie, p, q);
    }
  }

  lemma DueLater(cfg: SurveySpec.Config, s: State, p: Bits, t: Instant, r: Bits)
    requires Sweeping(cfg, s, t) && p in s.dues && Names(s.trie, r)
    requires r != p ==> LeafAt(s.trie, r).value.surveyed != 0
    requires r in PutOff(cfg, s, p, t).dues
    ensures PutOff(cfg, s, p, t).dues[r] > t
  {
    IntervalPositive(cfg, s);
    hide DepthWithin, RunningOk, Normal, Population, LeafAt, Inv;
  }

  /** Surveys that find nobody make the map one region. */
  lemma {:induction false} SweepAll(cfg: SurveySpec.Config, s: State, t: Instant) returns (s': State)
    requires Sweeping(cfg, s, t) && Reached(cfg, s, t) && t > 0
    ensures Sweeping(cfg, s', t) && Reached(cfg, s', t) && s'.trie.Leaf?
    decreases RegionRuns.Unsurveyed(s.trie)
  {
    s' := s;
    if RegionRuns.Unsurveyed(s.trie) > 0 {
      s' := Sweep(cfg, s, t);
      s' := SweepAll(cfg, s', t);
    } else {
      SweptThrough(cfg, s, t);
    }
  }

  lemma SweptThrough(cfg: SurveySpec.Config, s: State, t: Instant)
    requires Sweeping(cfg, s, t) && RegionRuns.Unsurveyed(s.trie) == 0
    ensures s.trie.Leaf?
  {
    RegionRuns.SurveyedThroughout(cfg.table, s.trie, 0);
  }

  /** From the start, surveys can make the map one region, with nobody found and nothing under way. */
  lemma OneRegion(cfg: SurveySpec.Config) returns (s: State, t: Instant)
    requires cfg.Valid()
    ensures Reached(cfg, s, t) && t > 0 && Inv(cfg, s) && s.seeded && s.running.None? && s.trie.Leaf?
    ensures [] in s.dues && s.dues.Keys == {[]}
  {
    var s0 := AfterFirst(cfg);
    t := 1 + cfg.interval;
    LaterReached(cfg, s0, 1, t);
    StartsSweeping(cfg, s0, t);
    s := SweepAll(cfg, s0, t);
    hide Reached, Normal, Population, Names;
    OnlyRegion(s.trie);
  }

  lemma LaterReached(cfg: SurveySpec.Config, s: State, t: Instant, later: Instant)
    requires Reached(cfg, s, t) && t <= later
    ensures Reached(cfg, s, later)
  {
    var ins :| LeadsTo(cfg, ins, s, t);
    hide Inv, SurveySpec.Config.Valid, InOrder;
    assert LeadsTo(cfg, ins, s, later);
  }

  lemma StartsSweeping(cfg: SurveySpec.Config, s: State, t: Instant)
    requires Inv(cfg, s) && s.seeded && s.running.None? && s.trie == BuildTrie(cfg.table.initialPrefixLen)
    requires forall p :: p in s.dues ==> s.dues[p] <= t
    ensures Sweeping(cfg, s, t)
  {
    BuildTrieNormal(cfg.table, cfg.table.initialPrefixLen, 0);
    RegionRuns.EmptyTrie(cfg.table.initialPrefixLen);
    forall p | p in s.dues ensures Names(s.trie, p) && LeafAt(s.trie, p).value.surveyed == 0 {
      BuiltUnsurveyed(cfg.table.initialPrefixLen, p);
    }
    hide Normal, Population, BuildTrie, Names;
  }

  lemma {:induction false} BuiltUnsurveyed(d: nat, p: Bits)
    requires Names(BuildTrie(d), p)
    ensures LeafAt(BuildTrie(d), p).value.surveyed == 0
  {
    if d > 0 {
      BuiltUnsurveyed(d - 1, p[1..]);
    }
  }

  lemma OnlyRegion(t: Trie)
    requires t.Leaf?
    ensures forall p :: Names(t, p) <==> p == []
  {
    forall p ensures Names(t, p) <==> p == [] {
      NamesBelow(t, p);
    }
  }

  // ---------- Any find ----------

  /** The survey of the only region is under way from time t, with these nodes to ask, and all that have been
      asked have answered or are waited for within their deadlines. */
  ghost predicate Surveying(cfg: SurveySpec.Config, s: State, t: Instant, nodes: seq<Bits>) {
    && Inv(cfg, s) && s.seeded && s.trie.Leaf? && s.dues == map[[] := t + cfg.interval]
    && s.running.Some? && s.running.value.prefix == []
    && RunsThrough(s.running.value, t, nodes)
  }

  ghost predicate RunsThrough(r: Running, t: Instant, nodes: seq<Bits>) {
    && OfAll(r.cfg) && Lively(r.cfg, r.query, t) && r.query.inFlight > 0 && r.query.deadline >= t
    && forall k :: Lookup.Knows(r.query.nodes, k) <==> k in nodes
  }

  /** One node answers, naming nobody: the survey goes on, unless that was the last. */
  lemma AnswerOnce(cfg: SurveySpec.Config, s: State, t: Instant, nodes: seq<Bits>) returns (i: nat, s': State)
    requires Surveying(cfg, s, t, nodes) && Reached(cfg, s, t) && t > 0
    ensures var q := s.running.value.query;
      && i < |q.nodes| && q.nodes[i].state.Waiting?
      && (LastWaits(q.nodes, i)
          || (Surveying(cfg, s', t, nodes) && Reached(cfg, s', t) && Left(s') < Left(s)))
  {
    var r := s.running.value;
    i := SomeWaits(r.cfg, r.query);
    var ev := FindCloserResponse(r.query.nodes[i].key, []);
    Answered(r.cfg, r.query, i);
    OneMoreAnswer(r.cfg, r.query, t, i);
    KeyFits(cfg, r, i, []);
    SuppliesOk(cfg, []);
    hide *;
    Step(cfg, s, t, t, ev, Nothing());
    s' := SurveySpec.Advance(cfg, s, t, ev, Nothing()).0;
    if !LastWaits(r.query.nodes, i) {
      GoesOn(cfg, s, t, nodes, i);
    }
  }

  /** How many times the nodes of the query under way can still change. */
  ghost function Left(s: State): nat {
    if s.running.None? then 0 else Lookup.Sum(Lookup.Rank, s.running.value.query.nodes, |s.running.value.query.nodes|)
  }

  lemma KeyFits(cfg: SurveySpec.Config, r: Running, i: nat, closer: seq<Bits>)
    requires RunningOk(cfg, r) && i < |r.query.nodes| && forall x :: 0 <= x < |closer| ==> |closer[x]| == cfg.table.keyLen
    ensures SurveySpec.ValidEvent(cfg, FindCloserResponse(r.query.nodes[i].key, closer))
    ensures QueryEvent(FindCloserResponse(r.query.nodes[i].key, closer)) == Lookup.Response(r.query.nodes[i].key, closer)
    ensures |r.cfg.target| == cfg.table.keyLen && r.cfg.self == cfg.self
  {
    assert Lookup.Ascending(r.cfg.target, r.query.nodes);
  }

  lemma GoesOn(cfg: SurveySpec.Config, s: State, t: Instant, nodes: seq<Bits>, i: nat)
    requires Surveying(cfg, s, t, nodes) && i < |s.running.value.query.nodes| && t > 0
    requires var r := s.running.value;
      var ev := FindCloserResponse(r.query.nodes[i].key, []);
      && r.query.nodes[i].state.Waiting? && cfg.Valid() && SurveySpec.ValidEvent(cfg, ev) && ValidSupply(cfg, Nothing())
      && RunningOk(cfg, r) && Lookup.ValidEvent(r.cfg, QueryEvent(ev)) && QueryEvent(ev) == Lookup.Response(r.query.nodes[i].key, [])
      && Inv(cfg, SurveySpec.Advance(cfg, s, t, ev, Nothing()).0)
    requires var r := s.running.value;
      var (q', out) := Lookup.Advance(r.cfg, r.query, t, Lookup.Response(r.query.nodes[i].key, []));
      && !out.Finished? && Lively(r.cfg, q', t) && SameKeys(r.query.nodes, q'.nodes) && q'.inFlight > 0 && q'.deadline >= t
      && Lookup.Sum(Lookup.Rank, q'.nodes, |q'.nodes|) < Lookup.Sum(Lookup.Rank, r.query.nodes, |r.query.nodes|)
    ensures var s' := SurveySpec.Advance(cfg, s, t, FindCloserResponse(s.running.value.query.nodes[i].key, []), Nothing()).0;
      Surveying(cfg, s', t, nodes) && Left(s') < Left(s)
  {
    var r := s.running.value;
    var k := r.query.nodes[i].key;
    var q' := Lookup.Advance(r.cfg, r.query, t, Lookup.Response(k, [])).0;
    hide *;
    KeepsGoing(cfg, s, r, t, Lookup.Response(k, []));
    TakenOn(cfg, s, t, FindCloserResponse(k, []));
    SameKnown(r.query.nodes, q'.nodes);
    GoneOn(cfg, s, t, nodes, q');
  }

  lemma TakenOn(cfg: SurveySpec.Config, s: State, t: Instant, ev: Event)
    requires cfg.Valid() && SurveySpec.ValidEvent(cfg, ev) && ValidSupply(cfg, Nothing()) && s.running.Some?
    requires RunningOk(cfg, s.running.value) && Lookup.ValidEvent(s.running.value.cfg, QueryEvent(ev))
    ensures SurveySpec.Advance(cfg, s, t, ev, Nothing()).0 == AdvanceQuery(cfg, s, s.running.value, t, QueryEvent(ev)).0
  {
    hide AdvanceQuery, RunningOk, Lookup.ValidEvent;
  }

  lemma GoneOn(cfg: SurveySpec.Config, s: State, t: Instant, nodes: seq<Bits>, q: Lookup.State)
    requires Surveying(cfg, s, t, nodes)
    requires var r := s.running.value;
      && Inv(cfg, s.(running := Some(r.(query := q)))) && Lively(r.cfg, q, t) && q.inFlight > 0 && q.deadline >= t
      && (forall k :: Lookup.Knows(r.query.nodes, k) <==> Lookup.Knows(q.nodes, k))
      && Lookup.Sum(Lookup.Rank, q.nodes, |q.nodes|) < Lookup.Sum(Lookup.Rank, r.query.nodes, |r.query.nodes|)
    ensures var s' := s.(running := Some(s.running.value.(query := q))); Surveying(cfg, s', t, nodes) && Left(s') < Left(s)
  {
    NowSurveying(cfg, s, t, nodes, nodes, q);
    hide Inv, Lively, OfAll, Lookup.Knows, Lookup.Sum, Surveying;
  }

  lemma NowSurveying(cfg: SurveySpec.Config, s: State, t: Instant, nodes: seq<Bits>, more: seq<Bits>, q: Lookup.State)
    requires Surveying(cfg, s, t, nodes)
    requires var r := s.running.value;
      && Inv(cfg, s.(running := Some(r.(query := q)))) && Lively(r.cfg, q, t) && q.inFlight > 0 && q.deadline >= t
      && forall k :: Lookup.Knows(q.nodes, k) <==> k in more
    ensures Surveying(cfg, s.(running := Some(s.running.value.(query := q))), t, more)
  {
    hide Inv, Lively, OfAll, Lookup.Knows;
  }

  lemma SameKnown(a: seq<Lookup.Node>, b: seq<Lookup.Node>)
    requires SameKeys(a, b)
    ensures forall k :: Lookup.Knows(a, k) <==> Lookup.Knows(b, k)
  {
  }

  /** A query that is neither finished nor out of time stays under way. */
  lemma KeepsGoing(cfg: SurveySpec.Config, s: State, r: Running, t: Instant, ev: Lookup.Event)
    requires cfg.Valid() && RunningOk(cfg, r) && Lookup.ValidEvent(r.cfg, ev) && t > 0
    requires var (q', out) := Lookup.Advance(r.cfg, r.query, t, ev); !out.Finished? && q'.deadline >= t
    ensures AdvanceQuery(cfg, s, r, t, ev).0 == s.(running := Some(r.(query := Lookup.Advance(r.cfg, r.query, t, ev).0)))
  {
    if Lookup.Advance(r.cfg, r.query, t, ev).1.Waits() {
      PoolProofs.ReportedTimes(r.cfg, r.query, t, ev);
    }
    Dispatching(Lookup.Advance(r.cfg, r.query, t, ev).1);
    hide Lookup.Advance, LookupProofs.Inv, Observed, Rescheduled;
  }

  /** The survey of the only region begins. */
  lemma BeginsAt(cfg: SurveySpec.Config, s: State, t0: Instant, nodes: seq<Bits>) returns (s': State, t: Instant)
    requires Reached(cfg, s, t0) && Inv(cfg, s) && s.seeded && s.running.None? && s.trie.Leaf? && s.dues.Keys == {[]} && t0 > 0
    requires KeysOf(cfg.table, nodes) && 0 < |nodes| <= cfg.walkInBound && cfg.self !in nodes
    ensures t > 0 && Reached(cfg, s', t) && Surveying(cfg, s', t, nodes)
  {
    t := if s.dues[[]] > t0 then s.dues[[]] else t0;
    SeedsFit(cfg, nodes);
    PicksOnly(cfg, s, t);
    SuppliesOk(cfg, nodes);
    Step(cfg, s, t0, t, Poll, Asking(cfg, nodes));
    s' := SurveySpec.Advance(cfg, s, t, Poll, Asking(cfg, nodes)).0;
    hide *;
    UnderWay(cfg, s, t, nodes);
  }

  lemma SeedsFit(cfg: SurveySpec.Config, nodes: seq<Bits>)
    requires KeysOf(cfg.table, nodes)
    ensures forall i :: 0 <= i < |nodes| ==> |nodes[i]| == cfg.table.keyLen
  {
  }

  lemma PicksOnly(cfg: SurveySpec.Config, s: State, t: Instant)
    requires Inv(cfg, s) && s.seeded && s.running.None? && s.dues.Keys == {[]} && s.dues[[]] <= t
    ensures cfg.Valid() && Picked(cfg, s, t) == Some([])
  {
    assert [] in s.dues;
    hide Names, DepthWithin, RunningOk;
  }

  lemma UnderWay(cfg: SurveySpec.Config, s: State, t: Instant, nodes: seq<Bits>)
    requires cfg.Valid() && Inv(cfg, s) && s.seeded && s.running.None? && s.trie.Leaf? && s.dues.Keys == {[]} && t > 0
    requires ValidSupply(cfg, Asking(cfg, nodes)) && SurveySpec.ValidEvent(cfg, Poll)
    requires Picked(cfg, s, t) == Some([]) && |nodes| > 0 && cfg.self !in nodes
    requires forall i :: 0 <= i < |nodes| ==> |nodes[i]| == cfg.table.keyLen
    requires Inv(cfg, SurveySpec.Advance(cfg, s, t, Poll, Asking(cfg, nodes)).0)
    ensures Surveying(cfg, SurveySpec.Advance(cfg, s, t, Poll, Asking(cfg, nodes)).0, t, nodes)
  {
    hide *;
    PollLaunches(cfg, s, t, nodes);
    LaunchesAll(cfg, nodes);
    var r := Launched(cfg, [], Asking(cfg, nodes));
    FirstAsk(r.cfg, nodes, t);
    KeepsGoing(cfg, PutOff(cfg, s, [], t), r, t, Lookup.Poll);
    SameKnown(r.query.nodes, Lookup.Advance(r.cfg, r.query, t, Lookup.Poll).0.nodes);
    MakeSurveying(cfg, s, t, nodes, r, Lookup.Advance(r.cfg, r.query, t, Lookup.Poll).0);
  }

  lemma LaunchesAll(cfg: SurveySpec.Config, nodes: seq<Bits>)
    requires cfg.Valid() && ValidSupply(cfg, Asking(cfg, nodes)) && Asking(cfg, nodes).mint([]).Some?
    requires |nodes| > 0 && cfg.self !in nodes && forall i :: 0 <= i < |nodes| ==> |nodes[i]| == cfg.table.keyLen
    ensures var r := Launched(cfg, [], Asking(cfg, nodes));
      && r.prefix == [] && RunningOk(cfg, r) && OfAll(r.cfg) && Lookup.ValidEvent(r.cfg, Lookup.Poll)
      && (forall i :: 0 <= i < |nodes| ==> |nodes[i]| == |r.cfg.target|) && (exists k :: k in nodes && k != r.cfg.self)
      && r.cfg.Valid() && r.query == Lookup.Start(r.cfg, nodes) && Lookup.Ascending(r.cfg.target, r.query.nodes)
      && forall k :: Lookup.Knows(r.query.nodes, k) <==> k in nodes
  {
    var r := Launched(cfg, [], Asking(cfg, nodes));
    assert nodes[0] in nodes && r.cfg.self == cfg.self;
    forall k ensures Lookup.Knows(Lookup.Start(r.cfg, nodes).nodes, k) <==> k in nodes {
      StartKnows(r.cfg, nodes, k);
    }
    hide Lookup.Start, Lookup.Knows, LookupProofs.Inv;
  }

  lemma PollLaunches(cfg: SurveySpec.Config, s: State, t: Instant, nodes: seq<Bits>)
    requires cfg.Valid() && s.seeded && s.running.None? && s.dues.Keys == {[]} && t > 0
    requires ValidSupply(cfg, Asking(cfg, nodes)) && SurveySpec.ValidEvent(cfg, Poll) && Picked(cfg, s, t) == Some([])
    ensures Asking(cfg, nodes).mint([]).Some?
    ensures var r := Launched(cfg, [], Asking(cfg, nodes));
      && RunningOk(cfg, r) && Lookup.ValidEvent(r.cfg, Lookup.Poll)
      && SurveySpec.Advance(cfg, s, t, Poll, Asking(cfg, nodes)).0 == AdvanceQuery(cfg, PutOff(cfg, s, [], t), r, t, Lookup.Poll).0
  {
    hide AdvanceQuery, RunningOk, Launched, ValidSupply;
  }

  lemma MakeSurveying(cfg: SurveySpec.Config, s: State, t: Instant, nodes: seq<Bits>, r: Running, q: Lookup.State)
    requires s.seeded && s.trie.Leaf? && s.dues.Keys == {[]} && r.prefix == []
    requires Inv(cfg, PutOff(cfg, s, [], t).(running := Some(r.(query := q))))
    requires OfAll(r.cfg) && Lively(r.cfg, q, t) && q.inFlight > 0 && q.deadline >= t
    requires forall k :: Lookup.Knows(q.nodes, k) <==> k in nodes
    ensures Surveying(cfg, PutOff(cfg, s, [], t).(running := Some(r.(query := q))), t, nodes)
  {
    assert PutOff(cfg, s, [], t).dues == map[[] := t + cfg.interval];
    hide Inv, Lively, OfAll, Lookup.Knows;
  }

  /** Every node answers but one. */
  lemma {:induction false} AllButOne(cfg: SurveySpec.Config, s: State, t: Instant, nodes: seq<Bits>) returns (s': State, i: nat)
    requires Surveying(cfg, s, t, nodes) && Reached(cfg, s, t) && t > 0
    ensures Surveying(cfg, s', t, nodes) && Reached(cfg, s', t)
    ensures var q := s'.running.value.query; i < |q.nodes| && q.nodes[i].state.Waiting? && LastWaits(q.nodes, i)
    decreases Left(s)
  {
    s' := s;
    var next: State;
    i, next := AnswerOnce(cfg, s, t, nodes);
    if !LastWaits(s.running.value.query.nodes, i) {
      s', i := AllButOne(cfg, next, t, nodes);
    }
  }

  /** The last answer, however late, finishes the survey: it has found all of them, and they are recorded. */
  lemma LastFinds(cfg: SurveySpec.Config, s: State, t: Instant, nodes: seq<Bits>, i: nat, later: Instant) returns (found: seq<Bits>)
    requires Surveying(cfg, s, t, nodes) && later > 0
    requires var q := s.running.value.query; i < |q.nodes| && q.nodes[i].state.Waiting? && LastWaits(q.nodes, i)
    ensures cfg.Valid() && RunningOk(cfg, s.running.value) && KeysOf(cfg.table, found) && RegionRuns.OfRegion(found, [])
    ensures forall k :: k in found <==> k in nodes
    ensures var ev := FindCloserResponse(s.running.value.query.nodes[i].key, []);
      && SurveySpec.ValidEvent(cfg, ev) && ValidSupply(cfg, Nothing())
      && Lookup.ValidEvent(s.running.value.cfg, QueryEvent(ev))
      && FinishesWith(cfg, s.running.value, later, ev, Lookup.Advance(s.running.value.cfg, s.running.value.query, later, QueryEvent(ev)).0, found)
      && SurveySpec.Advance(cfg, s, later, ev, Nothing()).0 == Recorded(cfg, s, [], found, later)
  {
    var r := s.running.value;
    var k := r.query.nodes[i].key;
    UnderWayFacts(cfg, s);
    KeyFits(cfg, r, i, []);
    SuppliesOk(cfg, []);
    LivelyInv(r.cfg, r.query, t);
    LastAnswer(r.cfg, r.query, later, i);
    LookupResults.ReportedDistinct(r.cfg, r.query, later, Lookup.Response(k, []));
    ReportedKeys(cfg, r, later, Lookup.Response(k, []));
    found := Lookup.Advance(r.cfg, r.query, later, Lookup.Response(k, [])).1.results;
    hide Lookup.Advance, RunningOk, Inv, Lively, Lookup.ValidEvent, Lookup.Knows, ValidSupply, Recorded, LastWaits, KeysOf;
  }

  /** The first node asked answers, naming all the others: they are to be found as well. */
  lemma HearsOfAll(cfg: SurveySpec.Config, s: State, t: Instant, nodes: seq<Bits>) returns (s': State)
    requires |nodes| > 0 && Surveying(cfg, s, t, [nodes[0]]) && Reached(cfg, s, t) && t > 0
    requires KeysOf(cfg.table, nodes) && cfg.self !in nodes
    ensures Surveying(cfg, s', t, nodes) && Reached(cfg, s', t)
  {
    UnderWayFacts(cfg, s);
    var r := s.running.value;
    SeedsFit(cfg, nodes);
    var i := SomeWaits(r.cfg, r.query);
    KeyFits(cfg, r, i, nodes);
    SuppliesOk(cfg, []);
    var ev := FindCloserResponse(r.query.nodes[i].key, nodes);
    s' := s;
    hide *;
    if k :| k in nodes && k != nodes[0] {
      OthersUnknown(cfg, s, t, nodes, k);
      AnswerNames(r.cfg, r.query, t, i, nodes, k);
      Step(cfg, s, t, t, ev, Nothing());
      s' := SurveySpec.Advance(cfg, s, t, ev, Nothing()).0;
      HeardOfAll(cfg, s, t, nodes, i);
    } else {
      NobodyElse(cfg, s, t, nodes);
    }
  }

  lemma OthersUnknown(cfg: SurveySpec.Config, s: State, t: Instant, nodes: seq<Bits>, k: Bits)
    requires |nodes| > 0 && Surveying(cfg, s, t, [nodes[0]]) && k in nodes && k != nodes[0] && cfg.self !in nodes
    ensures !Lookup.Knows(s.running.value.query.nodes, k) && k != cfg.self
    ensures Lively(s.running.value.cfg, s.running.value.query, t) && OfAll(s.running.value.cfg)
  {
    hide Inv, Lively, OfAll, Lookup.Knows;
    assert k !in [nodes[0]];
  }

  lemma NobodyElse(cfg: SurveySpec.Config, s: State, t: Instant, nodes: seq<Bits>)
    requires |nodes| > 0 && Surveying(cfg, s, t, [nodes[0]]) && forall k :: k in nodes ==> k == nodes[0]
    ensures Surveying(cfg, s, t, nodes)
  {
    hide Inv, Lively, OfAll, Lookup.Knows;
    assert nodes[0] in nodes;
  }

  lemma HeardOfAll(cfg: SurveySpec.Config, s: State, t: Instant, nodes: seq<Bits>, i: nat)
    requires |nodes| > 0 && Surveying(cfg, s, t, [nodes[0]]) && i < |s.running.value.query.nodes| && t > 0
    requires cfg.self !in nodes && s.running.value.cfg.self == cfg.self
    requires var r := s.running.value;
      var ev := FindCloserResponse(r.query.nodes[i].key, nodes);
      && cfg.Valid() && SurveySpec.ValidEvent(cfg, ev) && ValidSupply(cfg, Nothing()) && RunningOk(cfg, r)
      && Lookup.ValidEvent(r.cfg, QueryEvent(ev)) && QueryEvent(ev) == Lookup.Response(r.query.nodes[i].key, nodes)
      && Inv(cfg, SurveySpec.Advance(cfg, s, t, ev, Nothing()).0)
    requires var r := s.running.value;
      var (q', out) := Lookup.Advance(r.cfg, r.query, t, Lookup.Response(r.query.nodes[i].key, nodes));
      && !out.Finished? && Lively(r.cfg, q', t) && q'.inFlight > 0 && (r.query.deadline >= t ==> q'.deadline >= t)
      && forall k :: Lookup.Knows(q'.nodes, k) <==> Lookup.Knows(r.query.nodes, k) || (k in nodes && k != r.cfg.self)
    ensures Surveying(cfg, SurveySpec.Advance(cfg, s, t, FindCloserResponse(s.running.value.query.nodes[i].key, nodes), Nothing()).0, t, nodes)
  {
    var r := s.running.value;
    var k := r.query.nodes[i].key;
    var q' := Lookup.Advance(r.cfg, r.query, t, Lookup.Response(k, nodes)).0;
    KnownIsFirst(cfg, s, t, nodes, q');
    hide *;
    KeepsGoing(cfg, s, r, t, Lookup.Response(k, nodes));
    TakenOn(cfg, s, t, FindCloserResponse(k, nodes));
    NowSurveying(cfg, s, t, [nodes[0]], nodes, q');
  }

  lemma KnownIsFirst(cfg: SurveySpec.Config, s: State, t: Instant, nodes: seq<Bits>, q: Lookup.State)
    requires |nodes| > 0 && Surveying(cfg, s, t, [nodes[0]]) && cfg.self !in nodes && s.running.value.cfg.self == cfg.self
    requires forall k :: Lookup.Knows(q.nodes, k) <==> Lookup.Knows(s.running.value.query.nodes, k) || (k in nodes && k != s.running.value.cfg.self)
    ensures s.running.value.query.deadline >= t && forall k :: Lookup.Knows(q.nodes, k) <==> k in nodes
  {
    hide Inv, Lively, OfAll, Lookup.Knows;
  }

  /** Any nodes but self can be found in a map of one region, with the last of them still to answer. */
  lemma Finds(cfg: SurveySpec.Config, nodes: seq<Bits>) returns (s: State, t: Instant, i: nat)
    requires cfg.Valid() && KeysOf(cfg.table, nodes) && |nodes| > 0 && cfg.self !in nodes
    ensures t > 0 && Reached(cfg, s, t) && Surveying(cfg, s, t, nodes)
    ensures var q := s.running.value.query; i < |q.nodes| && q.nodes[i].state.Waiting? && LastWaits(q.nodes, i)
  {
    hide *;
    var s0, t0 := OneRegion(cfg);
    FirstAlone(cfg, nodes);
    s, t := BeginsAt(cfg, s0, t0, [nodes[0]]);
    s := HearsOfAll(cfg, s, t, nodes);
    s, i := AllButOne(cfg, s, t, nodes);
  }

  lemma FirstAlone(cfg: SurveySpec.Config, nodes: seq<Bits>)
    requires cfg.Valid() && KeysOf(cfg.table, nodes) && |nodes| > 0 && cfg.self !in nodes
    ensures KeysOf(cfg.table, [nodes[0]]) && 0 < |[nodes[0]]| <= cfg.walkInBound && cfg.self !in [nodes[0]]
  {
    assert nodes[0] in nodes;
  }
}
