/** What one advance of the survey does and reports, stated on its query, its map and its due times; and over runs,
    who the nodes are that a survey records and when it is given up. */
module SurveyLaws {
  import opened Keys
  import opened Clock
  import opened Options
  import Sequences
  import opened RegionTable
  import RegionRuns
  import Lookup
  import LookupProofs
  import LookupLaws
  import LookupResults
  import Schedule
  import opened SurveySpec
  import opened SurveyProofs

  // ---------- One query ----------

  /** What reaches the query of a survey under way: a node's answer or failure as that. */
  ghost predicate PassedAs(ev: Event, qev: Lookup.Event) {
    match ev
    case Poll => qev.Poll?
    case FindCloserResponse(node, closer) => qev == Lookup.Response(node, closer)
    case FindCloserFailure(node) => qev == Lookup.Failure(node)
  }

  /** A survey of the region just made: its query knows the seeds but self, and has done nothing. */
  ghost predicate Fresh(cfg: SurveySpec.Config, r: Running, region: Bits, key: Bits, seeds: seq<Bits>) {
    && r.prefix == region && r.cfg.target == key && r.cfg.findCloser && r.cfg.coverage && r.cfg.prefixLen == |region|
    && r.cfg.self == cfg.self && r.cfg.concurrency == cfg.requestConcurrency && r.cfg.numResults == cfg.walkInBound
    && r.cfg.requestTimeout == cfg.requestTimeout && r.cfg.timeout == cfg.regionTimeout
    && (forall n :: n in r.query.nodes <==> n.state.NotContacted? && n.key in seeds && n.key != cfg.self)
    && r.query.inFlight == r.query.stats.requests == r.query.stats.success == r.query.stats.failure == 0
    && r.query.stats.start == r.query.stats.end == 0 && r.query.deadline == 0 && !r.query.finished
  }

  /** The survey r is advanced by qev. One that asks goes on; one that finishes is recorded and over; one that waits
      past its deadline is over, with map and due times as they were; and one that waits in time goes on. */
  ghost predicate Went(cfg: SurveySpec.Config, s: State, r: Running, now: Instant, qev: Lookup.Event, next: State, out: Outcome) {
    && cfg.Valid() && RunningOk(cfg, r) && Lookup.ValidEvent(r.cfg, qev)
    && var (q, o) := Lookup.Advance(r.cfg, r.query, now, qev); Leads(cfg, s, r, q, o, now, next, out)
  }

  /** What the query's report o leads to. */
  ghost predicate Leads(cfg: SurveySpec.Config, s: State, r: Running, q: Lookup.State, o: Lookup.Outcome, now: Instant,
                        next: State, out: Outcome)
  {
    match o
    case AskCloser(node, _) => q.stats.start > 0 && next == s.(running := Some(r.(query := q))) && out == FindCloser(r.cfg.target, node)
    case SendMessage(_, _) => false
    case Finished(results, _) => Recorded(cfg, s, r.prefix, results, now, next) && out == Finished(r.prefix, results)
    case WaitingAtCapacity(_, _, _) => Waits(s, r, q, now, next, out)
    case WaitingWithCapacity(_, _, _) => Waits(s, r, q, now, next, out)
  }

  /** The survey is over, and what it found is in the map and the due times. */
  ghost predicate Recorded(cfg: SurveySpec.Config, s: State, region: Bits, found: seq<Bits>, now: Instant, next: State) {
    && KeysOf(cfg.table, found)
    && next.running.None? && next.seeded == s.seeded
    && next.trie == Observed(cfg.table, s.trie, region, found, now)
    && next.dues == Rescheduled(s.trie, next.trie, s.dues)
  }

  ghost predicate Waits(s: State, r: Running, q: Lookup.State, now: Instant, next: State, out: Outcome) {
    && q.stats.start > 0
    && if now > q.deadline then next == s.(running := None) && out == Timeout(r.prefix)
       else next == s.(running := Some(r.(query := q))) && out.Waiting? && WakesAt(q, out.nextDue)
  }

  /** The earliest of a query's deadline and the deadlines of the requests it has out. */
  ghost predicate WakesAt(q: Lookup.State, due: Instant) {
    && 0 < due <= q.deadline
    && (due == q.deadline || exists n :: n in q.nodes && n.state == Lookup.Waiting(due))
    && forall n :: n in q.nodes && n.state.Waiting? ==> due <= n.state.deadline
  }

  lemma QueryExactly(cfg: SurveySpec.Config, s: State, r: Running, now: Instant, qev: Lookup.Event)
    requires cfg.Valid() && RunningOk(cfg, r) && now > 0 && Lookup.ValidEvent(r.cfg, qev) && !qev.Cancel?
    ensures var (next, out) := AdvanceQuery(cfg, s, r, now, qev); Went(cfg, s, r, now, qev, next, out)
  {
    QueryFacts(cfg, r, now, qev);
    var (q, o) := Lookup.Advance(r.cfg, r.query, now, qev);
    LeadsThere(cfg, s, r, q, o, now);
    hide Lookup.Advance, LookupProofs.Inv, Lookup.ValidEvent, KeysOf, WakesAt, SurveySpec.Config.Valid, RunningOk, Concluded, Leads;
  }

  lemma LeadsThere(cfg: SurveySpec.Config, s: State, r: Running, q: Lookup.State, o: Lookup.Outcome, now: Instant)
    requires !o.SendMessage? && (o.Finished? ==> KeysOf(cfg.table, o.results)) && (!o.Finished? ==> q.stats.start > 0)
    requires o.Waits() ==> o.deadline == q.deadline && WakesAt(q, Earlier(o.nextDue, o.deadline))
    ensures var (next, out) := Concluded(cfg, s, r.(query := q), o, now); Leads(cfg, s, r, q, o, now, next, out)
  {
    hide KeysOf, WakesAt, Observed, Rescheduled;
  }

  lemma QueryFacts(cfg: SurveySpec.Config, r: Running, now: Instant, qev: Lookup.Event)
    requires cfg.Valid() && RunningOk(cfg, r) && now > 0 && Lookup.ValidEvent(r.cfg, qev) && !qev.Cancel?
    ensures var (q, o) := Lookup.Advance(r.cfg, r.query, now, qev);
      && !o.SendMessage?
      && (o.Finished? ==> KeysOf(cfg.table, o.results))
      && (!o.Finished? ==> q.inFlight > 0 && q.stats.start > 0)
      && (o.Waits() ==> o.deadline == q.deadline && o.nextDue > 0 && q.deadline > 0 && WakesAt(q, Earlier(o.nextDue, o.deadline)))
  {
    CoverageQuery(cfg, r);
    Asks(cfg, r);
    LookupProofs.AdvanceKeepsInv(r.cfg, r.query, now, qev, 0);
    var (q, o) := Lookup.Advance(r.cfg, r.query, now, qev);
    hide *;
    LookupLaws.CountersExactly(r.cfg, r.query, now, qev);
    if o.Finished? {
      ReportedKeys(cfg, r, now, qev);
    } else {
      LookupLaws.AsksExactly(r.cfg, r.query, now, qev);
      HasBegun(r.cfg, q);
      if o.WaitingAtCapacity? || o.WaitingWithCapacity? {
        WaitsLeast(r.cfg, r.query, now, qev);
        WakesEarliest(r.cfg, q, o.nextDue);
      }
    }
    IsWaiting(o);
  }

  lemma IsWaiting(o: Lookup.Outcome)
    ensures o.Waits() <==> o.WaitingAtCapacity? || o.WaitingWithCapacity?
  {
  }

  lemma WaitsLeast(cfg: Lookup.Config, q: Lookup.State, now: Instant, qev: Lookup.Event)
    requires LookupProofs.Inv(cfg, q) && now > 0 && Lookup.ValidEvent(cfg, qev)
    requires Lookup.Advance(cfg, q, now, qev).1.WaitingAtCapacity? || Lookup.Advance(cfg, q, now, qev).1.WaitingWithCapacity?
    ensures var (q', o) := Lookup.Advance(cfg, q, now, qev); LookupResults.LeastDeadline(q'.nodes, o.nextDue)
  {
    LookupResults.SleepIsSafe(cfg, q, now, qev, 0);
    hide Lookup.Advance, LookupProofs.Inv, Lookup.ValidEvent, LookupResults.LeastDeadline;
  }

  lemma Asks(cfg: SurveySpec.Config, r: Running)
    requires RunningOk(cfg, r)
    ensures r.cfg.findCloser && r.cfg.timeout == cfg.regionTimeout
  {
  }

  lemma HasBegun(cfg: Lookup.Config, q: Lookup.State)
    requires LookupProofs.Inv(cfg, q) && q.inFlight > 0
    ensures q.stats.start > 0 && q.deadline == q.stats.start + cfg.timeout
  {
  }

  lemma WakesEarliest(cfg: Lookup.Config, q: Lookup.State, due: Instant)
    requires LookupProofs.Inv(cfg, q) && q.deadline > 0 && LookupResults.LeastDeadline(q.nodes, due)
    ensures due > 0 && WakesAt(q, Earlier(due, q.deadline))
  {
    var i :| 0 <= i < |q.nodes| && q.nodes[i].state == Lookup.Waiting(due);
    assert q.nodes[i] in q.nodes;
    assert due > 0;
  }

  // ---------- One advance ----------

  /** The state an advance works on: as it is once there are due times, which are set the first time by spreading
      the regions in order over one interval from now. */
  ghost predicate SeededNow(cfg: SurveySpec.Config, s: State, now: Instant, next: State) {
    if s.seeded then next == s else
    var regions := LeafPrefixes(s.trie, []);
    && next == s.(seeded := true, dues := next.dues) && |regions| > 0
    && (forall p :: p in next.dues <==> p in regions)
    && forall i :: 0 <= i < |regions| ==> next.dues[regions[i]] == now + i * (cfg.interval / |regions|)
  }

  /** The survey is idle and nothing has changed: no region is due, and the first will be at the time reported. */
  ghost predicate Idles(s: State, now: Instant, next: State, out: Outcome) {
    && next == s && out.Idle? && out.nextDue > now
    && (exists p :: p in s.dues && s.dues[p] == out.nextDue)
    && forall p :: p in s.dues ==> out.nextDue <= s.dues[p]
  }

  /** The region is put off by one interval and its survey starts, unless no key inside it can be had. */
  ghost predicate Begins(cfg: SurveySpec.Config, s: State, region: Bits, now: Instant, supply: Supply, next: State, out: Outcome) {
    var later := s.(dues := s.dues[region := now + cfg.interval]);
    if supply.mint(region).None? then next == later && out == Failed(region)
    else exists r :: Fresh(cfg, r, region, supply.mint(region).value, supply.seeds) && Went(cfg, later, r, now, Lookup.Poll, next, out)
  }

  /** One advance. A survey under way is advanced by its event. With none under way the region first due is
      surveyed, once it is due. */
  lemma AdvanceExactly(cfg: SurveySpec.Config, s: State, now: Instant, ev: Event, supply: Supply) returns (s1: State)
    requires Inv(cfg, s) && now > 0 && SurveySpec.ValidEvent(cfg, ev) && ValidSupply(cfg, supply)
    ensures var (next, out) := SurveySpec.Advance(cfg, s, now, ev, supply);
      && (s.running.Some? ==> exists qev :: PassedAs(ev, qev) && Went(cfg, s, s.running.value, now, qev, next, out))
      && (s.running.None? ==>
            && SeededNow(cfg, s, now, s1)
            && ((forall p :: p in s1.dues ==> s1.dues[p] > now) ==> Idles(s1, now, next, out))
            && ((exists p :: p in s1.dues && s1.dues[p] <= now) ==>
                  exists p :: Schedule.FirstDue(s1.dues, p) && s1.dues[p] <= now && Begins(cfg, s1, p, now, supply, next, out)))
  {
    s1 := Seeded(cfg, s, now);
    if s.running.Some? {
      UnderWayExactly(cfg, s, now, ev, supply);
    } else {
      SeededExactly(cfg, s, now);
      StartsExactly(cfg, s1, now, supply);
      NoneUnderWay(cfg, s, now, ev, supply);
    }
    hide *;
  }

  /** The region picked is due no later than any other, and is the first by prefix of those due with it. */
  lemma FirstExactly(dues: map<Bits, Instant>, p: Bits)
    ensures Schedule.FirstDue(dues, p) <==>
      p in dues && forall q :: q in dues && q != p ==> dues[p] < dues[q] || (dues[p] == dues[q] && (p < q || Precedes(p, q)))
  {
    if p in dues {
      forall q | q in dues && q != p
        ensures !Schedule.DueLess(Schedule.Due(dues[q], q), Schedule.Due(dues[p], p)) <==>
          dues[p] < dues[q] || (dues[p] == dues[q] && (p < q || Precedes(p, q)))
      {
        Schedule.StringLessExactly(p, q);
        Schedule.StringLessAsymmetric(p, q);
        StringLessTotal(p, q);
      }
      Schedule.StringLessAsymmetric(p, p);
    }
    hide Precedes, Schedule.StringLess;
  }

  lemma UnderWayExactly(cfg: SurveySpec.Config, s: State, now: Instant, ev: Event, supply: Supply)
    requires Inv(cfg, s) && now > 0 && SurveySpec.ValidEvent(cfg, ev) && ValidSupply(cfg, supply) && s.running.Some?
    ensures var (next, out) := SurveySpec.Advance(cfg, s, now, ev, supply);
      exists qev :: PassedAs(ev, qev) && Went(cfg, s, s.running.value, now, qev, next, out)
  {
    UnderWayFacts(cfg, s);
    PassedFits(cfg, s.running.value, ev);
    QueryExactly(cfg, s, s.running.value, now, QueryEvent(ev));
    hide AdvanceQuery, Went, RunningOk, Inv, PassedAs, SurveySpec.ValidEvent, ValidSupply, SurveySpec.Config.Valid,
      Lookup.ValidEvent, Names;
  }

  lemma PassedFits(cfg: SurveySpec.Config, r: Running, ev: Event)
    requires cfg.Valid() && RunningOk(cfg, r) && SurveySpec.ValidEvent(cfg, ev)
    ensures Lookup.ValidEvent(r.cfg, QueryEvent(ev)) && PassedAs(ev, QueryEvent(ev)) && !QueryEvent(ev).Cancel?
  {
    hide LookupProofs.Inv;
  }

  lemma NoneUnderWay(cfg: SurveySpec.Config, s: State, now: Instant, ev: Event, supply: Supply)
    requires Inv(cfg, s) && now > 0 && SurveySpec.ValidEvent(cfg, ev) && ValidSupply(cfg, supply) && s.running.None?
    ensures cfg.Valid()
    ensures SurveySpec.Advance(cfg, s, now, ev, supply) == StartDue(cfg, Seeded(cfg, s, now), now, supply)
  {
    hide StartDue, Seeded, Names;
  }

  lemma {:induction false} SpreadExactly(regions: seq<Bits>, n: nat, now: Instant, step: nat)
    requires n <= |regions| && Sequences.Distinct(regions)
    ensures var d := SeedDues(regions, n, now, step);
      && (forall p :: p in d <==> p in regions[..n])
      && forall i :: 0 <= i < n ==> d[regions[i]] == now + i * step
  {
    if n > 0 {
      SpreadExactly(regions, n - 1, now, step);
      assert regions[..n] == regions[..n - 1] + [regions[n - 1]];
      forall i | 0 <= i < n - 1 ensures regions[i] in regions[..n - 1] && regions[i] != regions[n - 1] {
        assert regions[..n - 1][i] == regions[i];
      }
      hide Sequences.Distinct;
    }
  }

  lemma SeededExactly(cfg: SurveySpec.Config, s: State, now: Instant)
    requires Inv(cfg, s) && now > 0 && s.running.None?
    ensures var s1 := Seeded(cfg, s, now);
      SeededNow(cfg, s, now, s1) && s1.running.None? && Agrees(s1.trie, s1.dues) && s1.dues != map[]
  {
    hide *;
    SeededAgrees(cfg, s, now);
    SeedsOnce(cfg, s, now);
    if !s.seeded {
      var regions := LeafPrefixes(s.trie, []);
      var step := cfg.interval / |regions|;
      SpreadExactly(regions, |regions|, now, step);
      IsSpread(cfg, s, now, step);
    }
  }

  lemma SeedsOnce(cfg: SurveySpec.Config, s: State, now: Instant)
    requires Inv(cfg, s) && s.running.None?
    ensures var regions := LeafPrefixes(s.trie, []);
      |regions| > 0 && Sequences.Distinct(regions)
      && (s.seeded ==> SeededNow(cfg, s, now, Seeded(cfg, s, now)))
      && (!s.seeded ==> Seeded(cfg, s, now) == s.(seeded := true, dues := SeedDues(regions, |regions|, now, cfg.interval / |regions|)))
  {
    RegionRuns.PrefixesDistinct(s.trie, []);
    hide LeafPrefixes, Names, DepthWithin, SeedDues;
  }

  lemma IsSpread(cfg: SurveySpec.Config, s: State, now: Instant, step: nat)
    requires var regions := LeafPrefixes(s.trie, []);
      && !s.seeded && |regions| > 0 && step == cfg.interval / |regions|
      && var d := SeedDues(regions, |regions|, now, step);
      && Seeded(cfg, s, now) == s.(seeded := true, dues := d)
      && (forall p :: p in d <==> p in regions[..|regions|])
      && forall i :: 0 <= i < |regions| ==> d[regions[i]] == now + i * step
    ensures SeededNow(cfg, s, now, Seeded(cfg, s, now))
  {
    var regions := LeafPrefixes(s.trie, []);
    assert regions[..|regions|] == regions;
    hide LeafPrefixes, SeedDues, Seeded;
  }

  lemma StartsExactly(cfg: SurveySpec.Config, s: State, now: Instant, supply: Supply)
    requires cfg.Valid() && ValidSupply(cfg, supply) && s.running.None? && Agrees(s.trie, s.dues) && s.dues != map[] && now > 0
    ensures var (next, out) := StartDue(cfg, s, now, supply);
      && ((forall p :: p in s.dues ==> s.dues[p] > now) ==> Idles(s, now, next, out))
      && ((exists p :: p in s.dues && s.dues[p] <= now) ==>
            exists p :: Schedule.FirstDue(s.dues, p) && s.dues[p] <= now && Begins(cfg, s, p, now, supply, next, out))
  {
    var p := First(s.dues);
    assert Schedule.FirstDue(s.dues, p);
    FirstIsLeast(s.dues, p);
    if s.dues[p] <= now {
      BeginsExactly(cfg, s, p, now, supply);
    }
    hide ValidSupply, Agrees, Schedule.FirstDue, Begins, StartSurvey;
  }

  lemma FirstIsLeast(dues: map<Bits, Instant>, p: Bits)
    requires Schedule.FirstDue(dues, p)
    ensures p in dues && forall q :: q in dues ==> dues[p] <= dues[q]
  {
  }

  lemma BeginsExactly(cfg: SurveySpec.Config, s: State, region: Bits, now: Instant, supply: Supply)
    requires cfg.Valid() && ValidSupply(cfg, supply) && now > 0
    ensures var (next, out) := StartSurvey(cfg, PutOff(cfg, s, region, now), region, now, supply);
      Begins(cfg, s, region, now, supply, next, out)
  {
    var later := PutOff(cfg, s, region, now);
    if supply.mint(region).Some? {
      var r := Launched(cfg, region, supply);
      LaunchedFresh(cfg, region, supply);
      PollFits(cfg, r);
      hide *;
      QueryExactly(cfg, later, r, now, Lookup.Poll);
      StartedNow(cfg, s, region, now, supply, r);
    }
    hide AdvanceQuery, Went, Fresh, ValidSupply, RunningOk, Launched, SurveySpec.Config.Valid;
  }

  lemma StartedNow(cfg: SurveySpec.Config, s: State, region: Bits, now: Instant, supply: Supply, r: Running)
    requires cfg.Valid() && ValidSupply(cfg, supply) && now > 0 && supply.mint(region).Some? && r == Launched(cfg, region, supply)
    requires RunningOk(cfg, r) && Lookup.ValidEvent(r.cfg, Lookup.Poll)
    requires Fresh(cfg, r, region, supply.mint(region).value, supply.seeds)
    requires var later := PutOff(cfg, s, region, now);
      var (next, out) := AdvanceQuery(cfg, later, r, now, Lookup.Poll); Went(cfg, later, r, now, Lookup.Poll, next, out)
    ensures var (next, out) := StartSurvey(cfg, PutOff(cfg, s, region, now), region, now, supply);
      Begins(cfg, s, region, now, supply, next, out)
  {
    hide AdvanceQuery, Went, Fresh, ValidSupply, RunningOk, Launched, SurveySpec.Config.Valid, Lookup.ValidEvent;
  }

  lemma PollFits(cfg: SurveySpec.Config, r: Running)
    requires cfg.Valid() && RunningOk(cfg, r)
    ensures Lookup.ValidEvent(r.cfg, Lookup.Poll)
  {
  }

  lemma LaunchedFresh(cfg: SurveySpec.Config, region: Bits, supply: Supply)
    requires cfg.Valid() && ValidSupply(cfg, supply) && supply.mint(region).Some?
    ensures Fresh(cfg, Launched(cfg, region, supply), region, supply.mint(region).value, supply.seeds)
  {
    var r := Launched(cfg, region, supply);
    forall n ensures n in r.query.nodes <==> n.state.NotContacted? && n.key in supply.seeds && n.key != cfg.self {
      LookupLaws.NamedExactly(r.cfg, [], supply.seeds, n);
    }
    hide LookupProofs.Inv;
  }

  // ---------- What the reports mean ----------

  /** A survey that is reported to wait is under way, and within its time since it first asked. */
  lemma WaitingMeans(cfg: SurveySpec.Config, s: State, now: Instant, ev: Event, supply: Supply)
    requires Inv(cfg, s) && now > 0 && SurveySpec.ValidEvent(cfg, ev) && ValidSupply(cfg, supply)
    requires SurveySpec.Advance(cfg, s, now, ev, supply).1.Waiting?
    ensures var next := SurveySpec.Advance(cfg, s, now, ev, supply).0;
      && next.running.Some?
      && var q := next.running.value.query;
         0 < q.stats.start && now <= q.deadline == q.stats.start + cfg.regionTimeout
  {
    hide *;
    CanAdvance(cfg, s);
    var s1 := AdvanceExactly(cfg, s, now, ev, supply);
    ScheduleAgrees(cfg, s, now, ev, supply);
    var (next, out) := SurveySpec.Advance(cfg, s, now, ev, supply);
    if s.running.Some? {
      var qev := PassedTo(cfg, s, now, ev, next, out);
      WentWaiting(cfg, s, s.running.value, now, qev, next, out);
    } else {
      var was, r := StartedAs(cfg, s, s1, now, supply, next, out);
      WentWaiting(cfg, was, r, now, Lookup.Poll, next, out);
    }
    KeepsTime(cfg, next);
  }

  lemma CanAdvance(cfg: SurveySpec.Config, s: State)
    requires Inv(cfg, s)
    ensures cfg.Valid() && (s.running.Some? ==> RunningOk(cfg, s.running.value))
  {
    hide RunningOk, Names, DepthWithin, Agrees, SurveySpec.Config.Valid;
  }

  lemma PassedTo(cfg: SurveySpec.Config, s: State, now: Instant, ev: Event, next: State, out: Outcome) returns (qev: Lookup.Event)
    requires s.running.Some? && exists qev :: PassedAs(ev, qev) && Went(cfg, s, s.running.value, now, qev, next, out)
    ensures PassedAs(ev, qev) && Went(cfg, s, s.running.value, now, qev, next, out)
  {
    hide *;
    qev :| PassedAs(ev, qev) && Went(cfg, s, s.running.value, now, qev, next, out);
  }

  /** With none under way before it, a report that is neither idle nor a failure is of a survey just begun. */
  lemma StartedAs(cfg: SurveySpec.Config, s: State, s1: State, now: Instant, supply: Supply, next: State, out: Outcome)
    returns (was: State, r: Running)
    requires s.running.None? && SeededNow(cfg, s, now, s1) && !out.Idle? && !out.Failed?
    requires (forall p :: p in s1.dues ==> s1.dues[p] > now) ==> Idles(s1, now, next, out)
    requires (exists p :: p in s1.dues && s1.dues[p] <= now) ==>
      exists p :: Schedule.FirstDue(s1.dues, p) && s1.dues[p] <= now && Begins(cfg, s1, p, now, supply, next, out)
    ensures was.trie == s.trie && was.running.None? && Went(cfg, was, r, now, Lookup.Poll, next, out)
    ensures exists key :: Fresh(cfg, r, r.prefix, key, supply.seeds)
  {
    var p := DueOne(cfg, s1, now, supply, next, out);
    was := s1.(dues := s1.dues[p := now + cfg.interval]);
    r := BegunAs(cfg, s1, p, now, supply, next, out);
    FreshPrefix(cfg, r, p, supply.mint(p).value, supply.seeds);
    hide Begins, Went, Fresh, LeafPrefixes, Schedule.FirstDue, Idles;
  }

  lemma DueOne(cfg: SurveySpec.Config, s1: State, now: Instant, supply: Supply, next: State, out: Outcome) returns (p: Bits)
    requires !out.Idle?
    requires (forall p :: p in s1.dues ==> s1.dues[p] > now) ==> Idles(s1, now, next, out)
    requires (exists p :: p in s1.dues && s1.dues[p] <= now) ==>
      exists p :: Schedule.FirstDue(s1.dues, p) && s1.dues[p] <= now && Begins(cfg, s1, p, now, supply, next, out)
    ensures Schedule.FirstDue(s1.dues, p) && s1.dues[p] <= now && Begins(cfg, s1, p, now, supply, next, out)
  {
    hide Begins;
    p :| Schedule.FirstDue(s1.dues, p) && s1.dues[p] <= now && Begins(cfg, s1, p, now, supply, next, out);
  }

  lemma BegunAs(cfg: SurveySpec.Config, s1: State, p: Bits, now: Instant, supply: Supply, next: State, out: Outcome) returns (r: Running)
    requires Begins(cfg, s1, p, now, supply, next, out) && !out.Failed?
    ensures supply.mint(p).Some? && Fresh(cfg, r, p, supply.mint(p).value, supply.seeds)
    ensures Went(cfg, s1.(dues := s1.dues[p := now + cfg.interval]), r, now, Lookup.Poll, next, out)
  {
    hide Went, Fresh;
    var later := s1.(dues := s1.dues[p := now + cfg.interval]);
    r :| Fresh(cfg, r, p, supply.mint(p).value, supply.seeds) && Went(cfg, later, r, now, Lookup.Poll, next, out);
  }

  lemma FreshPrefix(cfg: SurveySpec.Config, r: Running, region: Bits, key: Bits, seeds: seq<Bits>)
    requires Fresh(cfg, r, region, key, seeds)
    ensures r.prefix == region && r.query.stats.start == 0 && r.query.inFlight == 0
    ensures forall n :: n in r.query.nodes ==> n.state.NotContacted?
  {
  }

  lemma WentWaiting(cfg: SurveySpec.Config, s: State, r: Running, now: Instant, qev: Lookup.Event, next: State, out: Outcome)
    requires Went(cfg, s, r, now, qev, next, out) && out.Waiting?
    ensures next.running.Some? && now <= next.running.value.query.deadline && next.running.value.query.stats.start > 0
  {
    hide Lookup.Advance, LookupProofs.Inv, Lookup.ValidEvent, WakesAt, Recorded;
  }

  lemma KeepsTime(cfg: SurveySpec.Config, s: State)
    requires Inv(cfg, s) && s.running.Some?
    ensures var q := s.running.value.query; q.stats.start > 0 ==> q.deadline == q.stats.start + cfg.regionTimeout
  {
    hide Agrees, Names, DepthWithin;
  }

  /** Past its time a survey asks once more, is recorded or is given up; it does not wait. One given up leaves the
      map and the due times as they were, and none is under way. */
  lemma Overdue(cfg: SurveySpec.Config, s: State, now: Instant, ev: Event, supply: Supply)
    requires Inv(cfg, s) && now > 0 && SurveySpec.ValidEvent(cfg, ev) && ValidSupply(cfg, supply)
    requires s.running.Some? && s.running.value.query.stats.start > 0 && now > s.running.value.query.deadline
    ensures var (next, out) := SurveySpec.Advance(cfg, s, now, ev, supply);
      && (out.FindCloser? || (out.Finished? && out.prefix == s.running.value.prefix) || out == Timeout(s.running.value.prefix))
      && (out.Timeout? ==> next == s.(running := None))
      && (out.Finished? ==> next.running.None?)
      && (out.FindCloser? ==>
            && next.running.Some? && next.running.value.prefix == s.running.value.prefix
            && next.running.value.query.stats.start > 0 && next.running.value.query.deadline == s.running.value.query.deadline)
      && (out.FindCloser? && ev.Poll? ==> LookupLaws.Open(next.running.value.query.nodes) < LookupLaws.Open(s.running.value.query.nodes))
  {
    hide *;
    CanAdvance(cfg, s);
    var s1 := AdvanceExactly(cfg, s, now, ev, supply);
    var (next, out) := SurveySpec.Advance(cfg, s, now, ev, supply);
    var r := s.running.value;
    var qev := PassedTo(cfg, s, now, ev, next, out);
    UnderWayFacts(cfg, s);
    CoverageQuery(cfg, r);
    PassedPoll(cfg, s, r, now, ev, qev, next, out);
    LookupLaws.CountersExactly(r.cfg, r.query, now, qev);
    LookupProofs.AdvanceKeepsInv(r.cfg, r.query, now, qev, 0);
    SameTime(r.cfg, r.query);
    LookupLaws.PollAsksOne(r.cfg, r.query, now);
    WentOverdue(cfg, s, r, now, qev, next, out);
  }

  lemma PassedPoll(cfg: SurveySpec.Config, s: State, r: Running, now: Instant, ev: Event, qev: Lookup.Event, next: State, out: Outcome)
    requires PassedAs(ev, qev) && Went(cfg, s, r, now, qev, next, out)
    ensures !qev.Cancel? && (ev.Poll? <==> qev == Lookup.Poll) && Lookup.ValidEvent(r.cfg, qev) && Lookup.ValidEvent(r.cfg, Lookup.Poll)
    ensures qev.Response? ==> ev.FindCloserResponse? && ev.node == qev.node
  {
    hide Leads, LookupProofs.Inv;
  }

  lemma SameTime(cfg: Lookup.Config, q: Lookup.State)
    requires LookupProofs.Inv(cfg, q)
    ensures q.stats.start > 0 ==> q.deadline == q.stats.start + cfg.timeout
  {
  }

  lemma WentOverdue(cfg: SurveySpec.Config, s: State, r: Running, now: Instant, qev: Lookup.Event, next: State, out: Outcome)
    requires Went(cfg, s, r, now, qev, next, out)
    requires LookupProofs.Inv(r.cfg, r.query) && Lookup.ValidEvent(r.cfg, qev)
    requires now > Lookup.Advance(r.cfg, r.query, now, qev).0.deadline
    ensures var q := Lookup.Advance(r.cfg, r.query, now, qev).0;
      && (out.FindCloser? || (out.Finished? && out.prefix == r.prefix) || out == Timeout(r.prefix))
      && (out.Timeout? ==> next == s.(running := None))
      && (out.Finished? ==> next.running.None?)
      && (out.FindCloser? ==>
            && next.running == Some(r.(query := q)) && q.stats.start > 0
            && Lookup.Advance(r.cfg, r.query, now, qev).1.Dispatches())
  {
    hide Lookup.Advance, LookupProofs.Inv, Lookup.ValidEvent, WakesAt, Observed, Rescheduled;
  }

  // ---------- Runs ----------

  /** The state of a run from the start before its input i. */
  ghost function StateAt(cfg: SurveySpec.Config, ins: seq<Input>, i: nat): (s: State)
    requires cfg.Valid() && ValidInputs(cfg, ins) && i <= |ins|
    ensures Inv(cfg, s)
  {
    InitialOk(cfg);
    After(cfg, Initial(cfg), ins[..i])
  }

  /** What the run reports on its input i. */
  ghost function OutAt(cfg: SurveySpec.Config, ins: seq<Input>, i: nat): Outcome
    requires cfg.Valid() && ValidInputs(cfg, ins) && i < |ins|
  {
    CanAdvance(cfg, StateAt(cfg, ins, i));
    SurveySpec.Advance(cfg, StateAt(cfg, ins, i), ins[i].now, ins[i].ev, ins[i].supply).1
  }

  lemma StepAt(cfg: SurveySpec.Config, ins: seq<Input>, i: nat)
    requires cfg.Valid() && ValidInputs(cfg, ins) && i < |ins|
    ensures var s, x := StateAt(cfg, ins, i), ins[i];
      && Inv(cfg, s) && (s.running.Some? ==> RunningOk(cfg, s.running.value))
      && x.now > 0 && SurveySpec.ValidEvent(cfg, x.ev) && ValidSupply(cfg, x.supply)
      && SurveySpec.Advance(cfg, s, x.now, x.ev, x.supply) == (StateAt(cfg, ins, i + 1), OutAt(cfg, ins, i))
  {
    var upto := ins[..i + 1];
    assert upto[..|upto| - 1] == ins[..i] && upto[|upto| - 1] == ins[i];
    InitialOk(cfg);
    LastInput(cfg, Initial(cfg), upto);
    CanAdvance(cfg, StateAt(cfg, ins, i));
    hide SurveySpec.Advance, Inv, RunningOk, ValidSupply, SurveySpec.ValidEvent, SurveySpec.Config.Valid, After, Initial;
  }

  lemma StartAt(cfg: SurveySpec.Config, ins: seq<Input>)
    requires cfg.Valid() && ValidInputs(cfg, ins)
    ensures StateAt(cfg, ins, 0) == Initial(cfg)
  {
    InitialOk(cfg);
  }

  /** The survey under way has the node's answer. */
  ghost predicate HasAnswer(s: State, k: Bits) {
    s.running.Some? && Lookup.Node(k, Lookup.Succeeded) in s.running.value.query.nodes
  }

  predicate Answers(ev: Event, k: Bits) {
    ev.FindCloserResponse? && ev.node == k
  }

  ghost predicate Surveys(s: State, region: Bits) {
    s.running.Some? && s.running.value.prefix == region
  }

  /** A survey comes to have a node's answer, or to report the node, only by that answer. */
  lemma OneAnswer(cfg: SurveySpec.Config, s: State, now: Instant, ev: Event, supply: Supply, k: Bits)
    requires Inv(cfg, s) && now > 0 && SurveySpec.ValidEvent(cfg, ev) && ValidSupply(cfg, supply)
    ensures var (next, out) := SurveySpec.Advance(cfg, s, now, ev, supply);
      && (HasAnswer(next, k) || (out.Finished? && k in out.nodes) ==> s.running.Some? && (HasAnswer(s, k) || Answers(ev, k)))
      && (HasAnswer(next, k) ==> next.running.value.prefix == s.running.value.prefix)
      && (out.Finished? && k in out.nodes ==> out.prefix == s.running.value.prefix)
  {
    hide *;
    CanAdvance(cfg, s);
    var s1 := AdvanceExactly(cfg, s, now, ev, supply);
    var (next, out) := SurveySpec.Advance(cfg, s, now, ev, supply);
    if s.running.Some? {
      var qev := PassedTo(cfg, s, now, ev, next, out);
      PassedPoll(cfg, s, s.running.value, now, ev, qev, next, out);
      WentAnswered(cfg, s, s.running.value, now, qev, next, out, k);
      AnswersBy(s, ev, k);
    } else if out.Idle? || out.Failed? {
      NothingBegun(cfg, s, s1, now, supply, next, out, k);
    } else {
      var was, r := StartedAs(cfg, s, s1, now, supply, next, out);
      var key :| Fresh(cfg, r, r.prefix, key, supply.seeds);
      FreshPrefix(cfg, r, r.prefix, key, supply.seeds);
      WentAnswered(cfg, was, r, now, Lookup.Poll, next, out, k);
    }
  }

  lemma AnswersBy(s: State, ev: Event, k: Bits)
    ensures s.running.Some? && Lookup.Node(k, Lookup.Succeeded) in s.running.value.query.nodes ==> HasAnswer(s, k)
    ensures ev.FindCloserResponse? && ev.node == k ==> Answers(ev, k)
  {
  }

  lemma NothingBegun(cfg: SurveySpec.Config, s: State, s1: State, now: Instant, supply: Supply, next: State, out: Outcome, k: Bits)
    requires s.running.None? && SeededNow(cfg, s, now, s1) && (out.Idle? || out.Failed?)
    requires (forall p :: p in s1.dues ==> s1.dues[p] > now) ==> Idles(s1, now, next, out)
    requires (exists p :: p in s1.dues && s1.dues[p] <= now) ==>
      exists p :: Schedule.FirstDue(s1.dues, p) && s1.dues[p] <= now && Begins(cfg, s1, p, now, supply, next, out)
    ensures next.running.None? && next.seeded && !HasAnswer(next, k)
    ensures out.Idle? ==> Idles(next, now, next, out)
  {
    var p := IdlesOrBegins(cfg, s1, now, supply, next, out);
    if !Idles(s1, now, next, out) {
      BeginsReports(cfg, s1, p, now, supply, next, out);
    }
    hide Begins, LeafPrefixes;
  }

  lemma IdlesOrBegins(cfg: SurveySpec.Config, s1: State, now: Instant, supply: Supply, next: State, out: Outcome) returns (p: Bits)
    requires (forall p :: p in s1.dues ==> s1.dues[p] > now) ==> Idles(s1, now, next, out)
    requires (exists p :: p in s1.dues && s1.dues[p] <= now) ==>
      exists p :: Schedule.FirstDue(s1.dues, p) && s1.dues[p] <= now && Begins(cfg, s1, p, now, supply, next, out)
    ensures Idles(s1, now, next, out) || Begins(cfg, s1, p, now, supply, next, out)
  {
    hide Begins, Idles;
    p := [];
    if !Idles(s1, now, next, out) {
      p :| Schedule.FirstDue(s1.dues, p) && s1.dues[p] <= now && Begins(cfg, s1, p, now, supply, next, out);
    }
  }

  lemma BeginsReports(cfg: SurveySpec.Config, s1: State, p: Bits, now: Instant, supply: Supply, next: State, out: Outcome)
    requires Begins(cfg, s1, p, now, supply, next, out)
    ensures !out.Idle? && (out.Failed? ==> next.running == s1.running && next.seeded == s1.seeded)
  {
    hide Went, Fresh;
    if supply.mint(p).Some? {
      var later := s1.(dues := s1.dues[p := now + cfg.interval]);
      var r :| Fresh(cfg, r, p, supply.mint(p).value, supply.seeds) && Went(cfg, later, r, now, Lookup.Poll, next, out);
      NeverIdle(cfg, later, r, now, Lookup.Poll, next, out);
    }
  }

  lemma NeverIdle(cfg: SurveySpec.Config, s: State, r: Running, now: Instant, qev: Lookup.Event, next: State, out: Outcome)
    requires Went(cfg, s, r, now, qev, next, out)
    ensures !out.Idle? && !out.Failed?
  {
    hide Lookup.Advance, LookupProofs.Inv, WakesAt, Recorded, Lookup.ValidEvent;
  }

  lemma WentAnswered(cfg: SurveySpec.Config, s: State, r: Running, now: Instant, qev: Lookup.Event, next: State, out: Outcome, k: Bits)
    requires Went(cfg, s, r, now, qev, next, out) && now > 0
    ensures HasAnswer(next, k) || (out.Finished? && k in out.nodes) ==>
      Lookup.Node(k, Lookup.Succeeded) in r.query.nodes || (qev.Response? && qev.node == k)
    ensures HasAnswer(next, k) ==> next.running.value.prefix == r.prefix
    ensures out.Finished? ==> out.prefix == r.prefix
  {
    WentFits(cfg, s, r, now, qev, next, out);
    CoverageQuery(cfg, r);
    var (q, o) := Lookup.Advance(r.cfg, r.query, now, qev);
    hide *;
    LookupLaws.OnlyAnswersSucceed(r.cfg, r.query, now, qev, k);
    LeadsAnswered(cfg, s, r, q, o, now, next, out, k);
  }

  lemma LeadsAnswered(cfg: SurveySpec.Config, s: State, r: Running, q: Lookup.State, o: Lookup.Outcome, now: Instant,
                      next: State, out: Outcome, k: Bits)
    requires Leads(cfg, s, r, q, o, now, next, out)
    ensures HasAnswer(next, k) ==>
      next.running.Some? && Lookup.Node(k, Lookup.Succeeded) in q.nodes && next.running.value.prefix == r.prefix
    ensures out.Finished? ==> out.prefix == r.prefix && o.Finished? && out.nodes == o.results
  {
    hide WakesAt, Observed, Rescheduled;
  }

  /** The node answered on input j, and from then to input i one survey of the region has been under way. */
  ghost predicate AnsweredSince(cfg: SurveySpec.Config, ins: seq<Input>, region: Bits, k: Bits, j: nat, i: nat)
    requires cfg.Valid() && ValidInputs(cfg, ins) && i < |ins|
  {
    && j <= i && Answers(ins[j].ev, k)
    && forall x :: j <= x <= i ==> Surveys(StateAt(cfg, ins, x), region)
  }

  lemma {:induction false} HeldAnswered(cfg: SurveySpec.Config, ins: seq<Input>, i: nat, k: Bits) returns (j: nat)
    requires cfg.Valid() && ValidInputs(cfg, ins) && i <= |ins| && HasAnswer(StateAt(cfg, ins, i), k)
    ensures 0 < i && StateAt(cfg, ins, i).running.Some?
    ensures AnsweredSince(cfg, ins, StateAt(cfg, ins, i).running.value.prefix, k, j, i - 1)
  {
    hide *;
    UnderWay(StateAt(cfg, ins, i), k);
    StartAt(cfg, ins);
    NoneAtStart(cfg, k);
    StepAt(cfg, ins, i - 1);
    var s, x := StateAt(cfg, ins, i - 1), ins[i - 1];
    OneAnswer(cfg, s, x.now, x.ev, x.supply, k);
    if Answers(x.ev, k) {
      j := i - 1;
      SinceNow(cfg, ins, s.running.value.prefix, k, i - 1);
    } else {
      j := HeldAnswered(cfg, ins, i - 1, k);
      StillUnderWay(cfg, ins, s.running.value.prefix, k, j, i - 1);
    }
  }

  lemma UnderWay(s: State, k: Bits)
    requires HasAnswer(s, k)
    ensures s.running.Some?
  {
  }

  lemma NoneAtStart(cfg: SurveySpec.Config, k: Bits)
    ensures !HasAnswer(Initial(cfg), k)
  {
  }

  lemma SinceNow(cfg: SurveySpec.Config, ins: seq<Input>, region: Bits, k: Bits, i: nat)
    requires cfg.Valid() && ValidInputs(cfg, ins) && i < |ins| && Answers(ins[i].ev, k)
    requires StateAt(cfg, ins, i).running.Some? && StateAt(cfg, ins, i).running.value.prefix == region
    ensures AnsweredSince(cfg, ins, region, k, i, i)
  {
    hide StateAt;
  }

  lemma StillUnderWay(cfg: SurveySpec.Config, ins: seq<Input>, region: Bits, k: Bits, j: nat, i: nat)
    requires cfg.Valid() && ValidInputs(cfg, ins) && 0 < i < |ins| && AnsweredSince(cfg, ins, region, k, j, i - 1)
    requires StateAt(cfg, ins, i).running.Some? && StateAt(cfg, ins, i).running.value.prefix == region
    ensures AnsweredSince(cfg, ins, region, k, j, i)
  {
    hide StateAt;
  }

  /** Over any run from the start, every node that a survey finds in its region has answered that very survey. */
  lemma FoundAnswered(cfg: SurveySpec.Config, ins: seq<Input>, i: nat, k: Bits) returns (j: nat)
    requires cfg.Valid() && ValidInputs(cfg, ins) && i < |ins| && OutAt(cfg, ins, i).Finished? && k in OutAt(cfg, ins, i).nodes
    ensures AnsweredSince(cfg, ins, OutAt(cfg, ins, i).prefix, k, j, i)
  {
    hide *;
    StepAt(cfg, ins, i);
    var s, x := StateAt(cfg, ins, i), ins[i];
    OneAnswer(cfg, s, x.now, x.ev, x.supply, k);
    if Answers(x.ev, k) {
      j := i;
      SinceNow(cfg, ins, s.running.value.prefix, k, i);
    } else {
      j := HeldAnswered(cfg, ins, i, k);
      StillUnderWay(cfg, ins, s.running.value.prefix, k, j, i);
    }
  }

  /** A survey under way between two advances has asked. */
  lemma AlwaysBegun(cfg: SurveySpec.Config, ins: seq<Input>, i: nat)
    requires cfg.Valid() && ValidInputs(cfg, ins) && i <= |ins| && StateAt(cfg, ins, i).running.Some?
    ensures var q := StateAt(cfg, ins, i).running.value.query;
      0 < q.stats.start && q.deadline == q.stats.start + cfg.regionTimeout
  {
    hide *;
    StartAt(cfg, ins);
    NoneUnderWayAtStart(cfg);
    StepAt(cfg, ins, i - 1);
    var s, x := StateAt(cfg, ins, i - 1), ins[i - 1];
    var s1 := AdvanceExactly(cfg, s, x.now, x.ev, x.supply);
    var next, out := StateAt(cfg, ins, i), OutAt(cfg, ins, i - 1);
    if s.running.Some? {
      var qev := PassedTo(cfg, s, x.now, x.ev, next, out);
      WentBegun(cfg, s, s.running.value, x.now, qev, next, out);
    } else if out.Idle? || out.Failed? {
      NothingBegun(cfg, s, s1, x.now, x.supply, next, out, []);
    } else {
      var was, r := StartedAs(cfg, s, s1, x.now, x.supply, next, out);
      WentBegun(cfg, was, r, x.now, Lookup.Poll, next, out);
    }
    KeepsTime(cfg, next);
  }

  lemma NoneUnderWayAtStart(cfg: SurveySpec.Config)
    ensures Initial(cfg).running.None?
  {
  }

  lemma WentBegun(cfg: SurveySpec.Config, s: State, r: Running, now: Instant, qev: Lookup.Event, next: State, out: Outcome)
    requires Went(cfg, s, r, now, qev, next, out) && next.running.Some?
    ensures next.running.value.query.stats.start > 0
  {
    hide Lookup.Advance, LookupProofs.Inv, Lookup.ValidEvent, WakesAt, RunningOk;
  }

  /** Polls alone end a survey whose nodes stay silent: of polls past its time, no more than one for each node still
      to be asked and one more are made before it is recorded or given up. */
  lemma {:induction false} PollsEnd(cfg: SurveySpec.Config, ins: seq<Input>, i: nat, n: nat) returns (j: nat)
    requires cfg.Valid() && ValidInputs(cfg, ins) && i + n < |ins| && StateAt(cfg, ins, i).running.Some?
    requires |LookupLaws.Open(StateAt(cfg, ins, i).running.value.query.nodes)| <= n
    requires forall x :: i <= x <= i + n ==> ins[x].ev.Poll? && ins[x].now > StateAt(cfg, ins, i).running.value.query.deadline
    ensures i <= j <= i + n && StateAt(cfg, ins, j + 1).running.None?
    ensures var (out, region) := (OutAt(cfg, ins, j), StateAt(cfg, ins, i).running.value.prefix);
      out == Timeout(region) || (out.Finished? && out.prefix == region)
    ensures OutAt(cfg, ins, j).Timeout? ==>
      StateAt(cfg, ins, j + 1).trie == StateAt(cfg, ins, i).trie && StateAt(cfg, ins, j + 1).dues == StateAt(cfg, ins, i).dues
    decreases n
  {
    hide *;
    StepAt(cfg, ins, i);
    AlwaysBegun(cfg, ins, i);
    var s, x := StateAt(cfg, ins, i), ins[i];
    Overdue(cfg, s, x.now, x.ev, x.supply);
    j := i;
    if OutAt(cfg, ins, i).FindCloser? {
      var open, rest := LookupLaws.Open(s.running.value.query.nodes), LookupLaws.Open(StateAt(cfg, ins, i + 1).running.value.query.nodes);
      Fewer(rest, open);
      OnlyAsks(cfg, s, x.now, x.ev, x.supply);
      j := PollsEnd(cfg, ins, i + 1, n - 1);
    }
  }

  lemma Fewer<T>(a: set<T>, b: set<T>)
    requires a < b
    ensures |a| < |b|
  {
    var x :| x in b && x !in a;
    assert a <= b - {x};
    SubsetSize(a, b - {x});
  }

  lemma {:induction false} SubsetSize<T>(a: set<T>, b: set<T>)
    requires a <= b
    ensures |a| <= |b|
    decreases a
  {
    if x :| x in a {
      SubsetSize(a - {x}, b - {x});
    }
  }

  /** A report that asks leaves map and due times alone, of a survey that was under way. */
  lemma OnlyAsks(cfg: SurveySpec.Config, s: State, now: Instant, ev: Event, supply: Supply)
    requires Inv(cfg, s) && now > 0 && SurveySpec.ValidEvent(cfg, ev) && ValidSupply(cfg, supply) && s.running.Some?
    requires SurveySpec.Advance(cfg, s, now, ev, supply).1.FindCloser?
    ensures var next := SurveySpec.Advance(cfg, s, now, ev, supply).0; next.trie == s.trie && next.dues == s.dues
  {
    hide *;
    CanAdvance(cfg, s);
    var s1 := AdvanceExactly(cfg, s, now, ev, supply);
    var (next, out) := SurveySpec.Advance(cfg, s, now, ev, supply);
    var qev := PassedTo(cfg, s, now, ev, next, out);
    WentAsking(cfg, s, s.running.value, now, qev, next, out);
  }

  lemma WentAsking(cfg: SurveySpec.Config, s: State, r: Running, now: Instant, qev: Lookup.Event, next: State, out: Outcome)
    requires Went(cfg, s, r, now, qev, next, out) && out.FindCloser?
    ensures next.trie == s.trie && next.dues == s.dues
  {
    hide Lookup.Advance, LookupProofs.Inv, Lookup.ValidEvent, WakesAt, RunningOk, Recorded;
  }

  // ---------- Sleeping ----------

  /** After a report that the survey waits, a poll up to the time it gives changes nothing and reports the same; so
      does one before the time an idle survey gives. */
  lemma SurveySleeps(cfg: SurveySpec.Config, s: State, now: Instant, ev: Event, supply: Supply, t: Instant, other: Supply)
    requires Inv(cfg, s) && now > 0 && SurveySpec.ValidEvent(cfg, ev) && ValidSupply(cfg, supply) && ValidSupply(cfg, other) && t > 0
    requires var out := SurveySpec.Advance(cfg, s, now, ev, supply).1; (out.Waiting? && t <= out.nextDue) || (out.Idle? && t < out.nextDue)
    ensures var (next, out) := SurveySpec.Advance(cfg, s, now, ev, supply);
      && (next.running.Some? ==> RunningOk(cfg, next.running.value))
      && SurveySpec.Advance(cfg, next, t, Poll, other) == (next, out)
  {
    hide *;
    CanAdvance(cfg, s);
    ScheduleAgrees(cfg, s, now, ev, supply);
    var s1 := AdvanceExactly(cfg, s, now, ev, supply);
    var (next, out) := SurveySpec.Advance(cfg, s, now, ev, supply);
    CanAdvance(cfg, next);
    PollValid(cfg);
    if s.running.Some? {
      var qev := PassedTo(cfg, s, now, ev, next, out);
      PassedPoll(cfg, s, s.running.value, now, ev, qev, next, out);
      NeverIdle(cfg, s, s.running.value, now, qev, next, out);
      WaitsOn(cfg, s, s.running.value, now, qev, next, out, t, other);
    } else if out.Idle? {
      NothingBegun(cfg, s, s1, now, supply, next, out, []);
      ListsDues(cfg, next);
      NoneUnderWay(cfg, next, t, Poll, other);
      IdlesOn(cfg, next, now, out, t, other);
    } else {
      var was, r := StartedAs(cfg, s, s1, now, supply, next, out);
      WaitsOn(cfg, was, r, now, Lookup.Poll, next, out, t, other);
    }
  }

  lemma PollValid(cfg: SurveySpec.Config)
    ensures SurveySpec.ValidEvent(cfg, Poll) && PassedAs(Poll, QueryEvent(Poll)) && QueryEvent(Poll) == Lookup.Poll
  {
  }

  lemma ListsDues(cfg: SurveySpec.Config, s: State)
    requires Inv(cfg, s) && s.seeded
    ensures Agrees(s.trie, s.dues)
  {
    hide Agrees, Names, DepthWithin, RunningOk;
  }

  lemma IdlesOn(cfg: SurveySpec.Config, s: State, now: Instant, out: Outcome, t: Instant, other: Supply)
    requires cfg.Valid() && ValidSupply(cfg, other) && s.running.None? && s.seeded && Idles(s, now, s, out) && t < out.nextDue
    requires Agrees(s.trie, s.dues)
    ensures StartDue(cfg, Seeded(cfg, s, t), t, other) == (s, out)
  {
    var p :| p in s.dues && s.dues[p] == out.nextDue;
    FirstIsLeast(s.dues, First(s.dues));
    hide First, StartSurvey, Agrees, LeafPrefixes;
  }

  lemma WaitsOn(cfg: SurveySpec.Config, s: State, r: Running, now: Instant, qev: Lookup.Event, next: State, out: Outcome,
                t: Instant, other: Supply)
    requires Went(cfg, s, r, now, qev, next, out) && out.Waiting? && t <= out.nextDue && now > 0 && (qev.Poll? || !qev.Cancel?)
    requires cfg.Valid() && ValidSupply(cfg, other) && SurveySpec.ValidEvent(cfg, Poll) && QueryEvent(Poll) == Lookup.Poll
    requires next.running.Some? ==> RunningOk(cfg, next.running.value)
    ensures next.running.Some? && SurveySpec.Advance(cfg, next, t, Poll, other) == (next, out)
  {
    WentFits(cfg, s, r, now, qev, next, out);
    var (q, o) := Lookup.Advance(r.cfg, r.query, now, qev);
    hide *;
    QueryFacts(cfg, r, now, qev);
    LeadsWaiting(cfg, s, r, q, o, now, next, out);
    SameWake(q, out.nextDue, Earlier(o.nextDue, o.deadline));
    LookupResults.SleepIsSafe(r.cfg, r.query, now, qev, t);
    PollFits(cfg, r.(query := q));
    WaitsStill(cfg, next, r.(query := q), o, t, other);
  }

  lemma WentFits(cfg: SurveySpec.Config, s: State, r: Running, now: Instant, qev: Lookup.Event, next: State, out: Outcome)
    requires Went(cfg, s, r, now, qev, next, out)
    ensures cfg.Valid() && RunningOk(cfg, r) && LookupProofs.Inv(r.cfg, r.query) && Lookup.ValidEvent(r.cfg, qev)
    ensures r.cfg.Valid() && Lookup.Ascending(r.cfg.target, r.query.nodes)
    ensures var (q, o) := Lookup.Advance(r.cfg, r.query, now, qev); Leads(cfg, s, r, q, o, now, next, out)
  {
    CoverageQuery(cfg, r);
    LookupLaws.OrderedNodes(r.cfg, r.query);
    hide Leads, Lookup.Advance, LookupProofs.Inv, RunningOk;
  }

  lemma LeadsWaiting(cfg: SurveySpec.Config, s: State, r: Running, q: Lookup.State, o: Lookup.Outcome, now: Instant,
                     next: State, out: Outcome)
    requires Leads(cfg, s, r, q, o, now, next, out) && out.Waiting?
    ensures o.Waits() && WakesAt(q, out.nextDue) && next == s.(running := Some(r.(query := q)))
  {
    hide WakesAt, Observed, Rescheduled;
  }

  lemma SameWake(q: Lookup.State, a: Instant, b: Instant)
    requires WakesAt(q, a) && WakesAt(q, b)
    ensures a == b
  {
  }

  lemma WaitsStill(cfg: SurveySpec.Config, s: State, r: Running, o: Lookup.Outcome, t: Instant, other: Supply)
    requires cfg.Valid() && ValidSupply(cfg, other) && SurveySpec.ValidEvent(cfg, Poll) && QueryEvent(Poll) == Lookup.Poll
    requires s.running == Some(r) && RunningOk(cfg, r) && o.Waits() && Lookup.ValidEvent(r.cfg, Lookup.Poll)
    requires r.cfg.Valid() && Lookup.Ascending(r.cfg.target, r.query.nodes)
    requires Lookup.Advance(r.cfg, r.query, t, Lookup.Poll) == (r.query, o) && t <= o.deadline
    ensures SurveySpec.Advance(cfg, s, t, Poll, other) == (s, Waiting(Earlier(o.nextDue, o.deadline)))
  {
    hide Lookup.Advance, RunningOk, LookupProofs.Inv, Lookup.Ascending, ValidSupply;
  }
}
