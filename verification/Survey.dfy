/** The survey as the program runs it: a region map, a schedule and at most one coverage query, all
    updated in place, proved against the specification in `SurveySpec`. */
module Survey {
  import opened Keys
  import opened Clock
  import opened Options
  import opened RegionTable
  import opened Schedule
  import Lookup
  import Query
  import Table
  import opened SurveySpec
  import opened SurveyProofs

  class Survey {
    const cfg: SurveySpec.Config
    const table: Table.Table
    const schedule: RegionSchedule
    var seeded: bool
    var qry: Query.Query?
    var prefix: Bits

    ghost function Repr(): set<object>
      reads this, schedule, schedule.heap
    {
      {this, table} + schedule.Repr() + (if qry == null then {} else {qry, qry.iter})
    }

    ghost predicate Apart()
      reads this, schedule, schedule.heap
    {
      && schedule.Repr() !! {this, table}
      && (qry != null ==> schedule.Repr() !! {qry, qry.iter})
    }

    ghost predicate Valid()
      reads this, table, schedule, schedule.heap, schedule.heap.items
      reads if qry == null then {} else {qry, qry.iter}
    {
      && cfg.Valid() && table.cfg == cfg.table && table.Valid() && schedule.Valid() && Apart()
      && (qry != null ==> qry.Valid())
    }

    /** The survey's state as a value. */
    ghost function Contents(): State
      reads this, table, schedule, schedule.index.Values
      reads if qry == null then {} else {qry, qry.iter}
    {
      State(table.root, schedule.Dues(), seeded,
            if qry == null then None else Some(Running(prefix, qry.cfg, qry.Contents())))
    }

    constructor (cfg: SurveySpec.Config)
      requires cfg.Valid()
      ensures Valid() && fresh(Repr()) && this.cfg == cfg
      ensures Contents() == Initial(cfg)
    {
      hide RegionSchedule.Valid, RegionSchedule.Dues, Table.Table.Valid;
      this.cfg := cfg;
      table := new Table.Table(cfg.table);
      schedule := new RegionSchedule();
      seeded := false;
      qry := null;
      prefix := [];
    }

    method Advance(now: Instant, ev: Event, supply: Supply) returns (out: Outcome)
      requires Valid() && (qry != null ==> RunningOk(cfg, Contents().running.value)) && now > 0
      requires SurveySpec.ValidEvent(cfg, ev) && ValidSupply(cfg, supply)
      modifies Repr()
      ensures Valid() && fresh(Repr() - old(Repr()))
      ensures (Contents(), out) == SurveySpec.Advance(cfg, old(Contents()), now, ev, supply)
    {
      assert Contents().running.Some? <==> qry != null;
      assert qry != null ==> qry.cfg == Contents().running.value.cfg;
      AdvanceIs(cfg, Contents(), now, ev, supply);
      hide *;
      if qry != null {
        out := AdvanceQuery(now, QueryEvent(ev));
      } else {
        SeedSchedule(now);
        out := StartDue(now, supply);
      }
    }

    /** Starts a survey of the region due first, once it is due. */
    method StartDue(now: Instant, supply: Supply) returns (out: Outcome)
      requires Valid() && qry == null && ValidSupply(cfg, supply) && now > 0
      modifies Repr()
      ensures Valid() && fresh(Repr() - old(Repr()))
      ensures (Contents(), out) == SurveySpec.StartDue(cfg, old(Contents()), now, supply)
    {
      hide Valid, Contents, RunningOk, SurveySpec.StartSurvey, SurveySpec.StartDue, DueLess, PutOff, SurveySpec.Config.Valid;
      hide RegionSchedule.Valid, RegionSchedule.Dues, FirstDue;
      Scheduled();
      ghost var s := Contents();
      var entry := schedule.Peek();
      if entry.None? {
        NothingScheduled(cfg, s, now, supply);
        return Idle(0);
      }
      var region := entry.value.prefix;
      FirstScheduled(cfg, s, now, supply, region);
      if entry.value.due > now {
        return Idle(entry.value.due);
      }
      PutOffRegion(region, now);
      out := StartSurvey(now, region, supply);
    }

    lemma Scheduled()
      requires Valid()
      ensures cfg.Valid() && schedule.Valid() && Contents().dues == schedule.Dues()
    {
    }

    method PutOffRegion(region: Bits, now: Instant)
      requires Valid() && qry == null
      modifies schedule.Repr()
      ensures Valid() && fresh(Repr() - old(Repr())) && qry == null
      ensures Contents() == PutOff(cfg, old(Contents()), region, now)
    {
      hide RegionSchedule.Valid, RegionSchedule.Dues, Table.Table.Valid, SurveySpec.Config.Valid;
      schedule.Add(region, now + cfg.interval);
    }

    /** Fills the schedule from the table the first time it is needed. */
    method SeedSchedule(now: Instant)
      requires Valid() && qry == null
      modifies Repr()
      ensures Valid() && fresh(Repr() - old(Repr())) && qry == null
      ensures Contents() == Seeded(cfg, old(Contents()), now)
    {
      hide RegionSchedule.Valid, RegionSchedule.Dues, Query.Query.Valid, Query.Query.Contents, Table.Table.Valid, SurveySpec.Config.Valid;
      if seeded {
        return;
      }
      seeded := true;
      var regions := LeafPrefixes(table.root, []);
      if |regions| == 0 {
        return;
      }
      Seed(schedule, regions, now, cfg.interval / |regions|);
    }

    static method Seed(schedule: RegionSchedule, regions: seq<Bits>, now: Instant, step: nat)
      requires schedule.Valid()
      modifies schedule.Repr()
      ensures schedule.Valid() && fresh(schedule.Repr() - old(schedule.Repr()))
      ensures schedule.Dues() == old(schedule.Dues()) + SeedDues(regions, |regions|, now, step)
    {
      hide RegionSchedule.Valid, RegionSchedule.Dues;
      for i := 0 to |regions|
        invariant schedule.Valid() && fresh(schedule.Repr() - old(schedule.Repr()))
        invariant schedule.Dues() == old(schedule.Dues()) + SeedDues(regions, i, now, step)
      {
        schedule.Add(regions[i], now + step * i);
      }
    }

    method StartSurvey(now: Instant, region: Bits, supply: Supply) returns (out: Outcome)
      requires Valid() && qry == null && ValidSupply(cfg, supply) && now > 0
      modifies Repr()
      ensures Valid() && fresh(Repr() - old(Repr()))
      ensures (Contents(), out) == SurveySpec.StartSurvey(cfg, old(Contents()), region, now, supply)
    {
      StartIs(cfg, Contents(), region, now, supply);
      hide *;
      var target := supply.mint(region);
      if target.None? {
        return Failed(region);
      }
      Launch(region, target.value, supply);
      out := AdvanceQuery(now, Lookup.Poll);
    }

    /** Sets up the query that surveys a region. */
    method Launch(region: Bits, target: Bits, supply: Supply)
      requires Valid() && qry == null && ValidSupply(cfg, supply) && supply.mint(region) == Some(target)
      modifies this
      ensures Valid() && fresh(Repr() - old(Repr())) && qry != null
      ensures Contents() == old(Contents()).(running := Some(Launched(cfg, region, supply)))
      ensures Lookup.ValidEvent(qry.cfg, Lookup.Poll)
    {
      var qcfg := QueryConfig(cfg, region, target);
      LaunchedIs(cfg, region, target, supply);
      hide RunningOk, QueryConfig, Launched, ValidSupply, Lookup.Start, Query.Query.Contents, Lookup.Config.Valid;
      hide RegionSchedule.Valid, RegionSchedule.Dues, Table.Table.Valid, SurveySpec.Config.Valid;
      qry := new Query.Query(qcfg, supply.seeds);
      prefix := region;
    }

    /** Advances the running query. */
    method AdvanceQuery(now: Instant, ev: Lookup.Event) returns (out: Outcome)
      requires Valid() && qry != null && now > 0
      requires RunningOk(cfg, Contents().running.value) && Lookup.ValidEvent(qry.cfg, ev)
      modifies Repr()
      ensures Valid() && fresh(Repr() - old(Repr()))
      ensures (Contents(), out) == SurveySpec.AdvanceQuery(cfg, old(Contents()), old(Contents().running.value), now, ev)
    {
      hide Valid, Contents, RunningOk, Lookup.Advance, Concluded, SurveySpec.AdvanceQuery, Lookup.ValidEvent;
      hide Lookup.Ascending, KeysOf, SurveySpec.Config.Valid, Lookup.Config.Valid;
      UnderWay();
      ghost var r := Contents().running.value;
      Advanceable(cfg, r);
      ConcludedOnce(cfg, Contents(), r, now, ev);
      var st := StepQuery(now, ev);
      out := Conclude(now, st);
    }

    lemma UnderWay()
      requires Valid() && qry != null
      ensures cfg.Valid() && Contents().running.Some? && Contents().running.value.cfg == qry.cfg
      ensures Contents().running == Some(Contents().running.value)
    {
    }

    /** Acts on the query's report: when it is finished, records what it found. */
    method Conclude(now: Instant, st: Lookup.Outcome) returns (out: Outcome)
      requires Valid() && qry != null && (st.Finished? ==> KeysOf(cfg.table, st.results))
      modifies Repr()
      ensures Valid() && fresh(Repr() - old(Repr()))
      ensures (Contents(), out) == Concluded(cfg, old(Contents()), old(Contents().running.value), st, now)
    {
      var region, target := prefix, qry.cfg.target;
      hide Recorded, KeysOf, Valid, SurveySpec.Config.Valid;
      match st {
        case AskCloser(node, _) => return FindCloser(target, node);
        case SendMessage(node, _) => return FindCloser(target, node);
        case Finished(results, _) =>
          Record(region, results, now);
          return Outcome.Finished(region, results);
        case WaitingAtCapacity(_, deadline, nextDue) => out := WaitOrGiveUp(now, region, deadline, nextDue);
        case WaitingWithCapacity(_, deadline, nextDue) => out := WaitOrGiveUp(now, region, deadline, nextDue);
      }
    }

    method StepQuery(now: Instant, ev: Lookup.Event) returns (out: Lookup.Outcome)
      requires Valid() && qry != null && Lookup.ValidEvent(qry.cfg, ev)
      requires var r := Contents().running.value; Lookup.Ascending(r.cfg.target, r.query.nodes) && r.cfg.Valid()
      modifies Repr()
      ensures Valid() && Repr() == old(Repr()) && qry != null
      ensures var s := old(Contents());
        var (q, o) := Lookup.Advance(s.running.value.cfg, s.running.value.query, now, ev);
        Contents() == s.(running := Some(s.running.value.(query := q))) && out == o
    {
      hide RegionSchedule.Valid, RegionSchedule.Dues, Query.Query.Contents, Table.Table.Valid, SurveySpec.Config.Valid, Lookup.Advance;
      out := qry.Advance(now, ev);
    }

    method WaitOrGiveUp(now: Instant, region: Bits, deadline: Instant, nextDue: Instant) returns (out: Outcome)
      requires Valid()
      modifies Repr()
      ensures Valid() && Repr() <= old(Repr())
      ensures Contents() == if now > deadline then old(Contents()).(running := None) else old(Contents())
      ensures out == if now > deadline then Timeout(region) else Waiting(Earlier(nextDue, deadline))
    {
      if now > deadline {
        ClearQuery();
        return Timeout(region);
      }
      out := Waiting(Earlier(nextDue, deadline));
    }

    method ClearQuery()
      requires Valid()
      modifies this
      ensures Valid() && Repr() <= old(Repr()) && qry == null
      ensures Contents() == old(Contents()).(running := None)
    {
      qry := null;
      prefix := [];
    }

    /** Records what a survey found into the table and the schedule. */
    method Record(region: Bits, members: seq<Bits>, now: Instant)
      requires Valid() && KeysOf(cfg.table, members)
      modifies Repr()
      ensures Valid() && fresh(Repr() - old(Repr()))
      ensures Contents() == Recorded(cfg, old(Contents()), region, members, now)
    {
      hide RegionSchedule.Valid, RegionSchedule.Dues, Query.Query.Valid, Query.Query.Contents, Table.Table.Valid, SurveySpec.Config.Valid;
      hide Reconciled, Observed, Minus, LeafPrefixes, KeysOf;
      ClearQuery();
      var removed, added := table.Observe(region, members, now);
      Reconcile(removed, added);
    }

    /** Brings the schedule into step with the regions the table removed and added. */
    method Reconcile(removed: seq<Bits>, added: seq<Bits>)
      requires Valid() && qry == null
      modifies schedule.Repr()
      ensures Valid() && fresh(Repr() - old(Repr()))
      ensures Contents() == old(Contents()).(dues := Reconciled(old(Contents()).dues, removed, added))
    {
      hide RegionSchedule.Valid, RegionSchedule.Dues, Query.Query.Valid, Query.Query.Contents, Table.Table.Valid, SurveySpec.Config.Valid;
      ghost var was := schedule.Dues();
      if |removed| == 0 && |added| == 0 {
        assert Reconciled(was, removed, added) == was;
        return;
      }
      var dues := TakenOverDues(removed, added);
      hide Best, Reconciled;
      Unschedule(schedule, removed);
      ScheduleAt(schedule, added, dues);
      ReconciledInSteps(was, removed, added, dues);
    }

    static method Unschedule(schedule: RegionSchedule, removed: seq<Bits>)
      requires schedule.Valid()
      modifies schedule.Repr()
      ensures schedule.Valid() && fresh(schedule.Repr() - old(schedule.Repr()))
      ensures schedule.Dues() == old(schedule.Dues()) - (set p | p in removed)
    {
      hide RegionSchedule.Valid, RegionSchedule.Dues;
      for i := 0 to |removed|
        invariant schedule.Valid() && fresh(schedule.Repr() - old(schedule.Repr()))
        invariant schedule.Dues() == old(schedule.Dues()) - (set p | p in removed[..i])
      {
        assert removed[..i + 1] == removed[..i] + [removed[i]];
        schedule.Remove(removed[i]);
      }
      assert removed[..|removed|] == removed;
    }

    static method ScheduleAt(schedule: RegionSchedule, added: seq<Bits>, dues: map<Bits, Instant>)
      requires schedule.Valid() && forall p :: p in added ==> p in dues
      modifies schedule.Repr()
      ensures schedule.Valid() && fresh(schedule.Repr() - old(schedule.Repr()))
      ensures schedule.Dues() == old(schedule.Dues()) + (map p | p in added :: dues[p])
    {
      hide RegionSchedule.Valid, RegionSchedule.Dues;
      for i := 0 to |added|
        invariant schedule.Valid() && fresh(schedule.Repr() - old(schedule.Repr()))
        invariant schedule.Dues() == old(schedule.Dues()) + (map p | p in added[..i] :: dues[p])
      {
        assert added[..i + 1] == added[..i] + [added[i]];
        schedule.Add(added[i], dues[added[i]]);
      }
      assert added[..|added|] == added;
    }

    /** The due time each added region takes over. */
    method TakenOverDues(removed: seq<Bits>, added: seq<Bits>) returns (dues: map<Bits, Instant>)
      requires Valid()
      ensures dues.Keys == set p | p in added
      ensures forall p :: p in dues ==> dues[p] == Best(schedule.Dues(), removed, p)
    {
      dues := map[];
      for i := 0 to |added|
        invariant dues.Keys == set p | p in added[..i]
        invariant forall p :: p in dues ==> dues[p] == Best(schedule.Dues(), removed, p)
      {
        assert added[..i + 1] == added[..i] + [added[i]];
        var best := LeastDue(removed, added[i]);
        dues := dues[added[i] := best];
      }
      assert added[..|added|] == added;
    }

    /** The least due time of the removed regions related to a. */
    method LeastDue(removed: seq<Bits>, a: Bits) returns (best: Instant)
      requires Valid()
      ensures best == Best(schedule.Dues(), removed, a)
    {
      best := 0;
      for i := 0 to |removed|
        invariant best == Best(schedule.Dues(), removed[..i], a)
      {
        assert removed[..i + 1][..i] == removed[..i];
        if Related(a, removed[i]) {
          var d := schedule.DueOf(removed[i]);
          if d.Some? && (best == 0 || d.value < best) {
            best := d.value;
          }
        }
      }
      assert removed[..|removed|] == removed;
    }
  }

  /** Dropping the removed regions and then adding the added ones. */
  lemma ReconciledInSteps(was: map<Bits, Instant>, removed: seq<Bits>, added: seq<Bits>, dues: map<Bits, Instant>)
    requires dues.Keys == set p | p in added
    requires forall p :: p in dues ==> dues[p] == Best(was, removed, p)
    ensures Reconciled(was, removed, added) == was - (set p | p in removed) + (map p | p in added :: dues[p])
  {
    hide Best;
  }

  /** An advance goes on with the survey under way or starts one. */
  lemma AdvanceIs(cfg: SurveySpec.Config, s: State, now: Instant, ev: Event, supply: Supply)
    requires cfg.Valid() && SurveySpec.ValidEvent(cfg, ev) && ValidSupply(cfg, supply)
    requires s.running.Some? ==> RunningOk(cfg, s.running.value)
    ensures s.running.Some? ==> Lookup.ValidEvent(s.running.value.cfg, QueryEvent(ev))
    ensures s.running.Some? ==>
      SurveySpec.Advance(cfg, s, now, ev, supply) == SurveySpec.AdvanceQuery(cfg, s, s.running.value, now, QueryEvent(ev))
    ensures s.running.None? ==>
      SurveySpec.Advance(cfg, s, now, ev, supply) == SurveySpec.StartDue(cfg, Seeded(cfg, s, now), now, supply)
  {
    assert s.running.Some? ==> Lookup.ValidEvent(s.running.value.cfg, QueryEvent(ev));
    hide RunningOk, SurveySpec.AdvanceQuery, SurveySpec.StartDue, Seeded;
  }

  /** What the survey of a region starts with. */
  lemma LaunchedIs(cfg: SurveySpec.Config, region: Bits, target: Bits, supply: Supply)
    requires cfg.Valid() && ValidSupply(cfg, supply) && supply.mint(region) == Some(target)
    ensures var qcfg := QueryConfig(cfg, region, target);
      && qcfg.Valid() && Lookup.ValidEvent(qcfg, Lookup.Poll)
      && (forall i :: 0 <= i < |supply.seeds| ==> |supply.seeds[i]| == |qcfg.target|)
      && Launched(cfg, region, supply) == Running(region, qcfg, Lookup.Start(qcfg, supply.seeds))
  {
    StartOk(cfg, region, supply);
    hide RunningOk, Lookup.Start;
  }

  lemma NothingScheduled(cfg: SurveySpec.Config, s: State, now: Instant, supply: Supply)
    requires cfg.Valid() && ValidSupply(cfg, supply) && s.dues == map[]
    ensures SurveySpec.StartDue(cfg, s, now, supply) == (s, Idle(0))
  {
  }

  lemma FirstScheduled(cfg: SurveySpec.Config, s: State, now: Instant, supply: Supply, p: Bits)
    requires cfg.Valid() && ValidSupply(cfg, supply) && FirstDue(s.dues, p)
    ensures p in s.dues
    ensures s.dues[p] > now ==> SurveySpec.StartDue(cfg, s, now, supply) == (s, Idle(s.dues[p]))
    ensures s.dues[p] <= now ==>
      SurveySpec.StartDue(cfg, s, now, supply) == SurveySpec.StartSurvey(cfg, PutOff(cfg, s, p, now), p, now, supply)
  {
    FirstUnique(s.dues, p);
    hide SurveySpec.StartSurvey;
  }

  lemma Advanceable(cfg: SurveySpec.Config, r: Running)
    requires RunningOk(cfg, r)
    ensures r.cfg.Valid() && Lookup.Ascending(r.cfg.target, r.query.nodes)
  {
  }

  /** An advance of the survey under way, in two steps. */
  lemma ConcludedOnce(cfg: SurveySpec.Config, s: State, r: Running, now: Instant, ev: Lookup.Event)
    requires cfg.Valid() && RunningOk(cfg, r) && Lookup.ValidEvent(r.cfg, ev)
    ensures var (q, out) := Lookup.Advance(r.cfg, r.query, now, ev);
      && (out.Finished? ==> KeysOf(cfg.table, out.results))
      && SurveySpec.AdvanceQuery(cfg, s, r, now, ev)
         == Concluded(cfg, s.(running := Some(r.(query := q))), r.(query := q), out, now)
  {
    if Lookup.Advance(r.cfg, r.query, now, ev).1.Finished? {
      ReportedKeys(cfg, r, now, ev);
    }
    hide Lookup.Advance, Rescheduled, Observed, KeysOf, RunningOk, Lookup.ValidEvent;
  }

  /** Starting a survey advances its query at once, if a key can be had. */
  lemma StartIs(cfg: SurveySpec.Config, s: State, region: Bits, now: Instant, supply: Supply)
    requires cfg.Valid() && ValidSupply(cfg, supply)
    ensures supply.mint(region).None? ==> SurveySpec.StartSurvey(cfg, s, region, now, supply) == (s, Failed(region))
    ensures supply.mint(region).Some? ==>
      var r := Launched(cfg, region, supply);
      && RunningOk(cfg, r) && Lookup.ValidEvent(r.cfg, Lookup.Poll)
      && SurveySpec.StartSurvey(cfg, s, region, now, supply)
         == SurveySpec.AdvanceQuery(cfg, s.(running := Some(r)), r, now, Lookup.Poll)
  {
    if supply.mint(region).Some? {
      RunningOverwritten(cfg, s, Launched(cfg, region, supply), now, Lookup.Poll);
    }
    hide RunningOk, SurveySpec.AdvanceQuery, Launched;
  }

  /** An advance replaces whatever survey was recorded as running. */
  lemma RunningOverwritten(cfg: SurveySpec.Config, s: State, r: Running, now: Instant, ev: Lookup.Event)
    requires cfg.Valid() && RunningOk(cfg, r) && Lookup.ValidEvent(r.cfg, ev)
    ensures SurveySpec.AdvanceQuery(cfg, s.(running := Some(r)), r, now, ev) == SurveySpec.AdvanceQuery(cfg, s, r, now, ev)
  {
    hide Lookup.Advance, Rescheduled, Observed;
  }
}
