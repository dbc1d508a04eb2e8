/** The schedule agrees with the map it schedules, and a survey records what it found. */
module SurveyProofs {
  import opened Keys
  import opened Clock
  import opened Options
  import opened Sequences
  import opened RegionTable
  import opened RegionProofs
  import RegionRuns
  import Lookup
  import LookupProofs
  import LookupResults
  import opened SurveySpec

  // ---------- The schedule agrees with the map ----------

  ghost predicate Agrees(t: Trie, dues: map<Bits, Instant>) {
    && (forall p :: p in dues <==> Names(t, p))
    && (forall p :: p in dues ==> dues[p] > 0)
  }

  /** Between two advances: once seeded, the scheduled regions are exactly the regions of the map. */
  ghost predicate Inv(cfg: SurveySpec.Config, s: State) {
    && cfg.Valid() && DepthWithin(s.trie, cfg.table.keyLen)
    && (if s.seeded then Agrees(s.trie, s.dues) else s.dues == map[] && s.running.None?)
    && (s.running.Some? ==> RunningOk(cfg, s.running.value) && Names(s.trie, s.running.value.prefix))
  }

  lemma {:induction false} SeedDuesFacts(regions: seq<Bits>, n: nat, now: Instant, step: nat)
    requires n <= |regions| && now > 0
    ensures var d := SeedDues(regions, n, now, step);
      && (forall p :: p in d <==> p in regions[..n])
      && (forall p :: p in d ==> now <= d[p] && d[p] <= now + step * n)
  {
    if n > 0 {
      SeedDuesFacts(regions, n - 1, now, step);
      assert regions[..n] == regions[..n - 1] + [regions[n - 1]];
      assert step * n == step * (n - 1) + step;
    }
  }

  /** Seeding schedules every region, spread over the interval from now. */
  lemma SeededAgrees(cfg: SurveySpec.Config, s: State, now: Instant)
    requires Inv(cfg, s) && now > 0
    ensures var s1 := Seeded(cfg, s, now);
      && s1.seeded && s1.trie == s.trie && s1.running == s.running && Agrees(s1.trie, s1.dues) && s1.dues != map[]
      && (!s.seeded ==> forall p :: p in s1.dues ==> now <= s1.dues[p] <= now + cfg.interval)
  {
    var regions := LeafPrefixes(s.trie, []);
    RegionRuns.PrefixesDistinct(s.trie, []);
    forall p ensures p in regions <==> Names(s.trie, p) {
      NamesListed(s.trie, p);
    }
    assert Names(s.trie, regions[0]);
    if !s.seeded {
      var n := |regions|;
      SeedDuesFacts(regions, n, now, cfg.interval / n);
      assert regions[..n] == regions;
      StepsFit(cfg.interval, n);
      assert Seeded(cfg, s, now).dues == SeedDues(regions, n, now, cfg.interval / n);
    }
  }

  lemma StepsFit(a: nat, n: nat)
    requires n > 0
    ensures a / n * n <= a
  {
  }

  // ---------- What due time an added region takes over ----------

  lemma {:induction false} BestFacts(dues: map<Bits, Instant>, removed: seq<Bits>, a: Bits)
    requires forall p :: p in dues ==> dues[p] > 0
    ensures var b := Best(dues, removed, a);
      && (forall r :: r in removed && r in dues && Related(a, r) ==> 0 < b <= dues[r])
      && (b > 0 ==> exists r :: r in removed && r in dues && Related(a, r) && dues[r] == b)
  {
    if |removed| > 0 {
      var init, r := removed[..|removed| - 1], removed[|removed| - 1];
      BestFacts(dues, init, a);
      assert forall x :: x in removed <==> x in init || x == r;
    }
  }

  /** Names of the regions removed and added, as sets. */
  lemma DiffMembers(was: Trie, next: Trie, p: Bits)
    ensures p in Minus(LeafPrefixes(was, []), LeafPrefixes(next, [])) <==> Names(was, p) && !Names(next, p)
    ensures p in Minus(LeafPrefixes(next, []), LeafPrefixes(was, [])) <==> Names(next, p) && !Names(was, p)
  {
    NamesListed(was, p);
    NamesListed(next, p);
  }

  /** An added region overlaps some removed one. */
  lemma AddedOverlapsRemoved(was: Trie, next: Trie, n: nat, a: Bits) returns (r: Bits)
    requires DepthWithin(was, n) && DepthWithin(next, n) && Names(next, a) && !Names(was, a)
    ensures Names(was, r) && !Names(next, r) && Related(a, r)
  {
    NamesWithin(next, a, n);
    var k := Padded(a, n);
    Tiling(was, k);
    Tiling(next, k);
    r := LocatePrefix(was, k);
    Comparable(k, a, r);
  }

  /** Every region of the new map is scheduled and nothing else is; a region kept keeps its due time. */
  lemma RescheduledAgrees(was: Trie, next: Trie, dues: map<Bits, Instant>, n: nat)
    requires DepthWithin(was, n) && DepthWithin(next, n) && Agrees(was, dues)
    ensures var d := Rescheduled(was, next, dues);
      Agrees(next, d) && forall p :: Names(was, p) && Names(next, p) ==> d[p] == dues[p]
  {
    hide Names, Minus, LeafPrefixes, DepthWithin, Best, Related;
    var removed := Minus(LeafPrefixes(was, []), LeafPrefixes(next, []));
    var added := Minus(LeafPrefixes(next, []), LeafPrefixes(was, []));
    forall p
      ensures p in removed <==> Names(was, p) && !Names(next, p)
      ensures p in added <==> Names(next, p) && !Names(was, p)
    {
      DiffMembers(was, next, p);
    }
    forall a | a in added
      ensures Best(dues, removed, a) > 0
    {
      var r := TakenOver(was, next, dues, n, a);
    }
  }

  /** An added region takes over the due time of a removed region it overlaps. */
  lemma TakenOver(was: Trie, next: Trie, dues: map<Bits, Instant>, n: nat, a: Bits) returns (r: Bits)
    requires DepthWithin(was, n) && DepthWithin(next, n) && Agrees(was, dues)
    requires Names(next, a) && !Names(was, a)
    ensures Names(was, r) && !Names(next, r) && r in dues && Related(a, r)
    ensures a in Rescheduled(was, next, dues) && Rescheduled(was, next, dues)[a] == dues[r]
    ensures dues[r] == Best(dues, Minus(LeafPrefixes(was, []), LeafPrefixes(next, [])), a)
  {
    var removed := Minus(LeafPrefixes(was, []), LeafPrefixes(next, []));
    r := AddedOverlapsRemoved(was, next, n, a);
    DiffMembers(was, next, r);
    DiffMembers(was, next, a);
    BestFacts(dues, removed, a);
    hide Names, Minus, LeafPrefixes, DepthWithin, Best;
    assert dues[r] > 0;
    r :| r in removed && r in dues && Related(a, r) && dues[r] == Best(dues, removed, a);
    DiffMembers(was, next, r);
  }

  /** An added region is due no later than any removed region it overlaps. */
  lemma NoLater(was: Trie, next: Trie, dues: map<Bits, Instant>, n: nat, a: Bits, r: Bits)
    requires DepthWithin(was, n) && DepthWithin(next, n) && Agrees(was, dues)
    requires Names(next, a) && !Names(was, a) && Names(was, r) && !Names(next, r) && Related(a, r)
    ensures a in Rescheduled(was, next, dues) && Rescheduled(was, next, dues)[a] <= dues[r]
  {
    var removed := Minus(LeafPrefixes(was, []), LeafPrefixes(next, []));
    DiffMembers(was, next, r);
    BestFacts(dues, removed, a);
    var x := TakenOver(was, next, dues, n, a);
    hide Names, Minus, LeafPrefixes, DepthWithin, Best, Rescheduled;
  }

  /** A child of a split region inherits its due time, and a merged region takes the least due time of
      the regions it replaces. */
  lemma SplitInheritsMergeTakesLeast(was: Trie, next: Trie, dues: map<Bits, Instant>, n: nat, a: Bits)
    requires DepthWithin(was, n) && DepthWithin(next, n) && Agrees(was, dues)
    requires Names(next, a) && !Names(was, a)
    ensures var d := Rescheduled(was, next, dues);
      && a in d
      && (forall p :: p <= a && Names(was, p) ==> p in dues && d[a] == dues[p])
      && ((forall p :: p <= a ==> !Names(was, p)) ==>
            && (exists r :: a <= r && Names(was, r) && r in dues && d[a] == dues[r])
            && (forall r :: a <= r && Names(was, r) ==> r in dues && d[a] <= dues[r]))
  {
    var r := TakenOver(was, next, dues, n, a);
    forall p | p <= a && Names(was, p)
      ensures p == r
    {
      Comparable(a, p, r);
      if p <= r {
        PrefixFree(was, p, r);
      } else {
        PrefixFree(was, r, p);
      }
    }
    forall x | a <= x && Names(was, x)
      ensures x in dues && Rescheduled(was, next, dues)[a] <= dues[x]
    {
      if Names(next, x) {
        PrefixFree(next, a, x);
      }
      NoLater(was, next, dues, n, a, x);
    }
    hide Names, DepthWithin, Rescheduled;
  }

  // ---------- The invariant ----------

  /** The three things an advance of a running survey can do: go on, give up, or finish. */
  lemma QueryCases(cfg: SurveySpec.Config, s: State, r: Running, now: Instant, ev: Lookup.Event) returns (r': Running, members: seq<Bits>)
    requires cfg.Valid() && RunningOk(cfg, r) && now > 0 && Lookup.ValidEvent(r.cfg, ev)
    ensures r'.prefix == r.prefix && KeysOf(cfg.table, members)
    ensures var s' := AdvanceQuery(cfg, s, r, now, ev).0;
      || (s' == s.(running := Some(r')) && RunningOk(cfg, r'))
      || s' == s.(running := None)
      || (s' == Recorded(cfg, s, r.prefix, members, now)
          && Lookup.Advance(r.cfg, r.query, now, ev).1.Finished? && members == Lookup.Advance(r.cfg, r.query, now, ev).1.results)
    ensures Lookup.Advance(r.cfg, r.query, now, ev).1.Finished? ==>
      && AdvanceQuery(cfg, s, r, now, ev).0 == Recorded(cfg, s, r.prefix, members, now)
      && members == Lookup.Advance(r.cfg, r.query, now, ev).1.results
  {
    LookupProofs.AdvanceKeepsInv(r.cfg, r.query, now, ev, 0);
    StillRunning(r.cfg, r.query, now, ev);
    var (q, out) := Lookup.Advance(r.cfg, r.query, now, ev);
    r', members := r.(query := q), [];
    if out.Finished? {
      ReportedKeys(cfg, r, now, ev);
      members := out.results;
    }
    hide Lookup.Advance, LookupProofs.Inv, Observed, Rescheduled, Lookup.ValidEvent, Lookup.Config.Valid;
  }

  lemma ObservedDepth(cfg: RegionTable.Config, t: Trie, p: Bits, members: seq<Bits>, now: Instant)
    requires KeysOf(cfg, members) && DepthWithin(t, cfg.keyLen)
    ensures DepthWithin(Observed(cfg, t, p, members, now), cfg.keyLen)
  {
    ObserveDepth(cfg, t, p, 0, members, now);
  }

  lemma AdvanceQueryKeepsInv(cfg: SurveySpec.Config, s: State, r: Running, now: Instant, ev: Lookup.Event)
    requires cfg.Valid() && DepthWithin(s.trie, cfg.table.keyLen) && s.seeded && Agrees(s.trie, s.dues) && now > 0
    requires RunningOk(cfg, r) && Names(s.trie, r.prefix) && Lookup.ValidEvent(r.cfg, ev)
    ensures Inv(cfg, AdvanceQuery(cfg, s, r, now, ev).0) && AdvanceQuery(cfg, s, r, now, ev).0.seeded
  {
    hide AdvanceQuery, RunningOk, Agrees, Names, DepthWithin, Rescheduled, Observed, KeysOf, Lookup.ValidEvent;
    var r', members := QueryCases(cfg, s, r, now, ev);
    ObservedDepth(cfg.table, s.trie, r.prefix, members, now);
    RescheduledAgrees(s.trie, Observed(cfg.table, s.trie, r.prefix, members, now), s.dues, cfg.table.keyLen);
  }

  /** A query that does not report completion has not finished. */
  lemma StillRunning(cfg: Lookup.Config, q: Lookup.State, now: Instant, ev: Lookup.Event)
    requires LookupProofs.Inv(cfg, q) && !q.finished && Lookup.ValidEvent(cfg, ev)
    ensures !Lookup.Advance(cfg, q, now, ev).1.Finished? ==> !Lookup.Advance(cfg, q, now, ev).0.finished
  {
    if !ev.Cancel? {
      LookupProofs.RunningAdvance(cfg, q, now, ev);
      hide Lookup.Advance, Lookup.Apply, LookupProofs.GoodNodes, LookupProofs.Balanced;
      var j, w := LookupProofs.WalkCases(cfg, now, Lookup.Apply(cfg, q, ev));
    }
  }

  /** In every reachable state the scheduled regions are exactly the regions of the map. */
  lemma ScheduleAgrees(cfg: SurveySpec.Config, s: State, now: Instant, ev: Event, supply: Supply)
    requires Inv(cfg, s) && now > 0 && SurveySpec.ValidEvent(cfg, ev) && ValidSupply(cfg, supply)
    ensures Inv(cfg, SurveySpec.Advance(cfg, s, now, ev, supply).0)
    ensures SurveySpec.Advance(cfg, s, now, ev, supply).0.seeded
  {
    assert s.running.Some? ==> Lookup.ValidEvent(s.running.value.cfg, QueryEvent(ev));
    hide AdvanceQuery, RunningOk, Names, DepthWithin, Seeded;
    if s.running.Some? {
      AdvanceQueryKeepsInv(cfg, s, s.running.value, now, QueryEvent(ev));
    } else {
      SeededAgrees(cfg, s, now);
      var s1 := Seeded(cfg, s, now);
      var picked := Picked(cfg, s, now);
      if picked.Some? {
        var p := picked.value;
        assert p in s1.dues;
        var s2 := PutOff(cfg, s1, p, now);
        assert Agrees(s2.trie, s2.dues);
        if supply.mint(p).Some? {
          AdvanceQueryKeepsInv(cfg, s2, Launched(cfg, p, supply), now, Lookup.Poll);
        }
      }
    }
  }

  // ---------- What a finished survey records ----------

  /** The report a survey finishes with when ev reaches its query. */
  ghost predicate FinishesWith(cfg: SurveySpec.Config, r: Running, now: Instant, ev: Event, q: Lookup.State, found: seq<Bits>)
    requires cfg.Valid() && RunningOk(cfg, r) && SurveySpec.ValidEvent(cfg, ev)
  {
    && Lookup.ValidEvent(r.cfg, QueryEvent(ev))
    && var (q', out) := Lookup.Advance(r.cfg, r.query, now, QueryEvent(ev));
       out.Finished? && q' == q && out.results == found
  }

  /** A survey that finishes has found exactly the nodes of its region that answered, with every node of
      the region it heard of resolved. The map then records, in each region it made of that one, the nodes
      found there, and its population changes by the number found less what the region held before. */
  lemma SurveyRecordsWhatItFound(cfg: SurveySpec.Config, s: State, now: Instant, ev: Event, supply: Supply, q: Lookup.State, found: seq<Bits>)
    requires Inv(cfg, s) && now > 0 && SurveySpec.ValidEvent(cfg, ev) && ValidSupply(cfg, supply) && s.running.Some?
    requires FinishesWith(cfg, s.running.value, now, ev, q, found)
    ensures KeysOf(cfg.table, found)
    ensures var region, t := s.running.value.prefix, SurveySpec.Advance(cfg, s, now, ev, supply).0.trie;
      && (forall k :: k in found <==> HasPrefix(k, region) && Lookup.Node(k, Lookup.Succeeded) in q.nodes)
      && (forall n :: n in q.nodes && HasPrefix(n.key, region) ==> LookupResults.Resolved(n.state))
      && Names(s.trie, region) && |region| <= cfg.table.keyLen
      && Population(t) == Population(s.trie) - LeafAt(s.trie, region).value.population + |found|
      && (forall p :: Names(t, p) && region <= p ==>
            LeafAt(t, p) == Some(Leaf(CountUnder(found, |region|, p[|region|..]), now)))
  {
    hide *;
    UnderWayFacts(cfg, s);
    var r := s.running.value;
    FinishedCoverage(cfg, r, now, ev, q, found);
    FinishedRecords(cfg, s, now, ev, supply, q, found);
    NamesWithin(s.trie, r.prefix, cfg.table.keyLen);
    AppliedTo(cfg.table, s.trie, r.prefix, found, now);
    LongEnough(cfg.table, found, |r.prefix|);
    PopulationConserved(cfg.table, s.trie, r.prefix, 0, found, now);
    var t := SurveySpec.Advance(cfg, s, now, ev, supply).0.trie;
    forall p | Names(t, p) && r.prefix <= p
      ensures LeafAt(t, p) == Some(Leaf(CountUnder(found, |r.prefix|, p[|r.prefix|..]), now))
    {
      EveryRegionAfter(cfg.table, s.trie, r.prefix, 0, found, now, p);
    }
  }

  /** A survey of a region of the map is applied. */
  lemma AppliedTo(cfg: RegionTable.Config, was: Trie, p: Bits, members: seq<Bits>, now: Instant)
    requires KeysOf(cfg, members) && Names(was, p)
    ensures ObserveNode(cfg, was, p, 0, members, now) == Some(Observed(cfg, was, p, members, now))
  {
    AppliedIffNamed(cfg, was, p, 0, members, now);
    hide ObserveNode, Names, KeysOf;
  }

  lemma LongEnough(cfg: RegionTable.Config, members: seq<Bits>, n: nat)
    requires KeysOf(cfg, members) && n <= cfg.keyLen
    ensures forall i :: 0 <= i < |members| ==> n <= |members[i]|
  {
  }

  lemma UnderWayFacts(cfg: SurveySpec.Config, s: State)
    requires Inv(cfg, s) && s.running.Some?
    ensures cfg.Valid() && RunningOk(cfg, s.running.value)
    ensures DepthWithin(s.trie, cfg.table.keyLen) && Names(s.trie, s.running.value.prefix)
    ensures LeafAt(s.trie, s.running.value.prefix).Some?
  {
    hide RunningOk, DepthWithin, Agrees;
  }

  lemma FinishedCoverage(cfg: SurveySpec.Config, r: Running, now: Instant, ev: Event, q: Lookup.State, found: seq<Bits>)
    requires cfg.Valid() && RunningOk(cfg, r) && SurveySpec.ValidEvent(cfg, ev) && FinishesWith(cfg, r, now, ev, q, found)
    ensures KeysOf(cfg.table, found)
    ensures forall k :: k in found <==> HasPrefix(k, r.prefix) && Lookup.Node(k, Lookup.Succeeded) in q.nodes
    ensures forall n :: n in q.nodes && HasPrefix(n.key, r.prefix) ==> LookupResults.Resolved(n.state)
  {
    hide LookupProofs.Inv, Lookup.Advance, Lookup.ValidEvent;
    ReportedKeys(cfg, r, now, QueryEvent(ev));
    LookupResults.CoverageComplete(r.cfg, r.query, now, QueryEvent(ev), r.prefix);
  }

  lemma FinishedRecords(cfg: SurveySpec.Config, s: State, now: Instant, ev: Event, supply: Supply, q: Lookup.State, found: seq<Bits>)
    requires cfg.Valid() && s.running.Some? && RunningOk(cfg, s.running.value)
    requires SurveySpec.ValidEvent(cfg, ev) && ValidSupply(cfg, supply) && KeysOf(cfg.table, found)
    requires FinishesWith(cfg, s.running.value, now, ev, q, found)
    ensures SurveySpec.Advance(cfg, s, now, ev, supply).0.trie == Observed(cfg.table, s.trie, s.running.value.prefix, found, now)
  {
    hide Lookup.Advance, RunningOk, Observed, Reconciled, Lookup.ValidEvent;
  }

  // ---------- Runs ----------

  datatype Input = Input(now: Instant, ev: Event, supply: Supply)

  ghost predicate ValidInputs(cfg: SurveySpec.Config, ins: seq<Input>) {
    forall i :: 0 <= i < |ins| ==> ins[i].now > 0 && SurveySpec.ValidEvent(cfg, ins[i].ev) && ValidSupply(cfg, ins[i].supply)
  }

  ghost function After(cfg: SurveySpec.Config, s: State, ins: seq<Input>): (r: State)
    requires Inv(cfg, s) && ValidInputs(cfg, ins)
    ensures Inv(cfg, r)
    decreases |ins|
  {
    if |ins| == 0 then s else
    var last, before := ins[|ins| - 1], After(cfg, s, ins[..|ins| - 1]);
    ScheduleAgrees(cfg, before, last.now, last.ev, last.supply);
    SurveySpec.Advance(cfg, before, last.now, last.ev, last.supply).0
  }

  /** What one advance of a running survey reports to the table, if anything: distinct nodes of its region,
      and never self. */
  lemma QueryReports(cfg: SurveySpec.Config, s: State, r: Running, now: Instant, ev: Lookup.Event) returns (members: seq<Bits>)
    requires cfg.Valid() && RunningOk(cfg, r) && now > 0 && Lookup.ValidEvent(r.cfg, ev) && !ev.Cancel?
    ensures KeysOf(cfg.table, members) && RegionRuns.OfRegion(members, r.prefix) && cfg.self !in members
    ensures var t := AdvanceQuery(cfg, s, r, now, ev).0.trie;
      t == s.trie || t == Observed(cfg.table, s.trie, r.prefix, members, now)
  {
    var r', found := QueryCases(cfg, s, r, now, ev);
    members := found;
    if Lookup.Advance(r.cfg, r.query, now, ev).1.Finished? {
      members := FoundInRegion(cfg, r, now, ev);
    } else {
      members := [];
    }
    hide Lookup.Advance, LookupProofs.Inv, AdvanceQuery, Observed, Rescheduled;
  }

  /** What a survey finds are distinct nodes of its region, and never self. */
  lemma FoundInRegion(cfg: SurveySpec.Config, r: Running, now: Instant, ev: Lookup.Event) returns (found: seq<Bits>)
    requires cfg.Valid() && RunningOk(cfg, r) && now > 0 && Lookup.ValidEvent(r.cfg, ev) && !ev.Cancel?
    requires Lookup.Advance(r.cfg, r.query, now, ev).1.Finished?
    ensures found == Lookup.Advance(r.cfg, r.query, now, ev).1.results
    ensures KeysOf(cfg.table, found) && RegionRuns.OfRegion(found, r.prefix) && cfg.self !in found
  {
    found := Lookup.Advance(r.cfg, r.query, now, ev).1.results;
    var q := Lookup.Advance(r.cfg, r.query, now, ev).0;
    CoverageQuery(cfg, r);
    hide *;
    ReportedKeys(cfg, r, now, ev);
    LookupResults.ReportedDistinct(r.cfg, r.query, now, ev);
    LookupResults.CoverageComplete(r.cfg, r.query, now, ev, r.prefix);
    LookupProofs.AdvanceKeepsInv(r.cfg, r.query, now, ev, 0);
    SelfUnknown(r.cfg, q, Lookup.Succeeded);
    SomeOfRegion(found, r.prefix);
  }

  lemma CoverageQuery(cfg: SurveySpec.Config, r: Running)
    requires RunningOk(cfg, r)
    ensures r.cfg.coverage && r.cfg.self == cfg.self && HasPrefix(r.cfg.target, r.prefix) && |r.prefix| == r.cfg.prefixLen
    ensures LookupProofs.Inv(r.cfg, r.query) && !r.query.finished
  {
    hide LookupProofs.Inv;
  }

  lemma SomeOfRegion(found: seq<Bits>, p: Bits)
    requires Distinct(found) && forall k :: k in found ==> HasPrefix(k, p)
    ensures RegionRuns.OfRegion(found, p)
  {
  }

  lemma SelfUnknown(cfg: Lookup.Config, q: Lookup.State, st: Lookup.NodeState)
    requires LookupProofs.Inv(cfg, q)
    ensures Lookup.Node(cfg.self, st) !in q.nodes
  {
  }

  lemma StepReports(cfg: SurveySpec.Config, s: State, now: Instant, ev: Event, supply: Supply) returns (report: Option<RegionRuns.Report>)
    requires Inv(cfg, s) && now > 0 && SurveySpec.ValidEvent(cfg, ev) && ValidSupply(cfg, supply)
    ensures report.Some? ==> report.value.now > 0 && KeysOf(cfg.table, report.value.members)
    ensures report.Some? ==> RegionRuns.OfRegion(report.value.members, report.value.prefix) && cfg.self !in report.value.members
    ensures SurveySpec.Advance(cfg, s, now, ev, supply).0.trie ==
      if report.None? then s.trie else Observed(cfg.table, s.trie, report.value.prefix, report.value.members, report.value.now)
  {
    assert s.running.Some? ==> Lookup.ValidEvent(s.running.value.cfg, QueryEvent(ev));
    hide AdvanceQuery, RunningOk, Names, DepthWithin, Observed, KeysOf, RegionRuns.OfRegion;
    report := None;
    var t := SurveySpec.Advance(cfg, s, now, ev, supply).0.trie;
    if s.running.Some? {
      var members := QueryReports(cfg, s, s.running.value, now, QueryEvent(ev));
      report := if t == s.trie then None else Some(RegionRuns.Report(s.running.value.prefix, members, now));
    } else if Picked(cfg, s, now).Some? {
      var p := Picked(cfg, s, now).value;
      var s2 := PutOff(cfg, Seeded(cfg, s, now), p, now);
      if supply.mint(p).Some? {
        var members := QueryReports(cfg, s2, Launched(cfg, p, supply), now, Lookup.Poll);
        report := if t == s.trie then None else Some(RegionRuns.Report(p, members, now));
      }
    }
  }

  function Initial(cfg: SurveySpec.Config): State {
    State(BuildTrie(cfg.table.initialPrefixLen), map[], false, None)
  }

  /** Whatever happens from the start, once there has been an advance the scheduled regions are
      exactly the regions of the map, each with a due time. */
  lemma AlwaysAgrees(cfg: SurveySpec.Config, ins: seq<Input>)
    requires cfg.Valid() && ValidInputs(cfg, ins) && |ins| > 0
    ensures Inv(cfg, Initial(cfg))
    ensures var e := After(cfg, Initial(cfg), ins);
      && DepthWithin(e.trie, cfg.table.keyLen)
      && (forall p :: p in e.dues <==> p in LeafPrefixes(e.trie, []))
      && (forall p :: p in e.dues ==> e.dues[p] > 0)
  {
    BuildTrieDepth(cfg.table.initialPrefixLen, cfg.table.keyLen);
    var init, last := ins[..|ins| - 1], ins[|ins| - 1];
    ScheduleAgrees(cfg, After(cfg, Initial(cfg), init), last.now, last.ev, last.supply);
    var e := After(cfg, Initial(cfg), ins);
    forall p ensures p in e.dues <==> p in LeafPrefixes(e.trie, []) {
      NamesListed(e.trie, p);
    }
  }

  /** The map a run leads to is the one its surveys' reports lead to, each of distinct nodes of the region it
      reports on, none of them self. */
  lemma {:induction false} ReportsOfRun(cfg: SurveySpec.Config, ins: seq<Input>) returns (reports: seq<RegionRuns.Report>)
    requires cfg.Valid() && ValidInputs(cfg, ins)
    ensures Inv(cfg, Initial(cfg)) && RegionRuns.SurveyReports(cfg.table, reports)
    ensures RegionRuns.NeverReported(reports, Some(cfg.self))
    ensures After(cfg, Initial(cfg), ins).trie == RegionRuns.After(cfg.table, reports)
    decreases |ins|
  {
    hide *;
    InitialOk(cfg);
    reports := [];
    if |ins| > 0 {
      var init, last := ins[..|ins| - 1], ins[|ins| - 1];
      LastInput(cfg, Initial(cfg), ins);
      reports := ReportsOfRun(cfg, init);
      var report := StepReports(cfg, After(cfg, Initial(cfg), init), last.now, last.ev, last.supply);
      if report.Some? {
        OneMoreReport(cfg.table, reports, report.value, cfg.self);
        reports := reports + [report.value];
      }
    } else {
      NothingReported(cfg, ins);
    }
  }

  lemma InitialOk(cfg: SurveySpec.Config)
    requires cfg.Valid()
    ensures Inv(cfg, Initial(cfg))
  {
    BuildTrieDepth(cfg.table.initialPrefixLen, cfg.table.keyLen);
  }

  lemma NothingReported(cfg: SurveySpec.Config, ins: seq<Input>)
    requires cfg.Valid() && Inv(cfg, Initial(cfg)) && ins == [] && ValidInputs(cfg, ins)
    ensures RegionRuns.SurveyReports(cfg.table, []) && RegionRuns.NeverReported([], Some(cfg.self))
    ensures After(cfg, Initial(cfg), ins).trie == RegionRuns.After(cfg.table, [])
  {
  }

  lemma LastInput(cfg: SurveySpec.Config, s: State, ins: seq<Input>)
    requires Inv(cfg, s) && ValidInputs(cfg, ins) && |ins| > 0
    ensures var init, last := ins[..|ins| - 1], ins[|ins| - 1];
      && ValidInputs(cfg, init) && last.now > 0 && SurveySpec.ValidEvent(cfg, last.ev) && ValidSupply(cfg, last.supply)
      && var before := After(cfg, s, init);
         && (before.running.Some? ==> RunningOk(cfg, before.running.value)) && cfg.Valid()
         && After(cfg, s, ins) == SurveySpec.Advance(cfg, before, last.now, last.ev, last.supply).0
  {
    hide SurveySpec.Advance, SurveySpec.ValidEvent, ValidSupply, RunningOk, Names, DepthWithin, SurveySpec.Config.Valid;
  }

  lemma OneMoreReport(cfg: RegionTable.Config, reports: seq<RegionRuns.Report>, r: RegionRuns.Report, me: Bits)
    requires RegionRuns.NeverReported(reports, Some(me)) && me !in r.members
    requires RegionRuns.SurveyReports(cfg, reports) && r.now > 0 && KeysOf(cfg, r.members) && RegionRuns.OfRegion(r.members, r.prefix)
    ensures RegionRuns.SurveyReports(cfg, reports + [r]) && RegionRuns.NeverReported(reports + [r], Some(me))
    ensures RegionRuns.After(cfg, reports + [r]) == Observed(cfg, RegionRuns.After(cfg, reports), r.prefix, r.members, r.now)
  {
    assert (reports + [r])[..|reports|] == reports;
    hide RegionRuns.OfRegion, Observed, KeysOf;
  }

  /** Within which limits every map that surveys lead to is in normal form: twice the merge threshold is
      within the split threshold, or no region can be found to hold enough nodes to split, self aside. */
  predicate StaysNormal(cfg: SurveySpec.Config) {
    2 * cfg.table.minPopulation <= cfg.table.maxPopulation || Pow2(cfg.table.keyLen) <= cfg.table.maxPopulation + 1
  }

  lemma AlwaysNormal(cfg: SurveySpec.Config, ins: seq<Input>)
    requires cfg.Valid() && ValidInputs(cfg, ins) && StaysNormal(cfg)
    ensures Inv(cfg, Initial(cfg)) && Normal(cfg.table, After(cfg, Initial(cfg), ins).trie, 0)
  {
    var reports := ReportsOfRun(cfg, ins);
    ValidTable(cfg);
    hide Inv, Normal, RegionRuns.SurveyReports, RegionRuns.NeverReported;
    if 2 * cfg.table.minPopulation <= cfg.table.maxPopulation {
      SurveysAreReports(cfg.table, reports);
      RegionRuns.AlwaysNormal(cfg.table, reports);
    } else {
      RegionRuns.SmallAlwaysNormal(cfg.table, reports, Some(cfg.self));
    }
  }

  lemma SurveysAreReports(cfg: RegionTable.Config, reports: seq<RegionRuns.Report>)
    requires RegionRuns.SurveyReports(cfg, reports)
    ensures RegionRuns.ValidReports(cfg, reports)
  {
  }

  lemma ValidTable(cfg: SurveySpec.Config)
    requires cfg.Valid()
    ensures cfg.table.Valid() && |cfg.self| == cfg.table.keyLen
  {
  }
}
