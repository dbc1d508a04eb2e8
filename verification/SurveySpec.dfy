/** What the survey of the region map does: which region it picks, and how a finished survey changes
    the map and the schedule together. */
module SurveySpec {
  import opened Keys
  import opened Clock
  import opened Options
  import RegionTable
  import Lookup
  import LookupProofs
  import LookupResults
  import opened Schedule

  datatype Config = Config(
    table: RegionTable.Config, self: Bits, interval: nat,
    regionTimeout: nat, requestConcurrency: nat, requestTimeout: nat, walkInBound: nat)
  {
    predicate Valid() {
      && table.Valid() && |self| == table.keyLen
      && interval >= 1 && regionTimeout >= 1 && requestConcurrency >= 1 && requestTimeout >= 1 && walkInBound >= 1
    }
  }

  /** What one advance can draw on when it starts a survey: mint gives a key inside a region, or none when
      it cannot, and need not give the same one again; seeds are the nodes to ask first, no more of them than
      the survey asks the routing table for. */
  datatype Supply = Supply(mint: Bits -> Option<Bits>, seeds: seq<Bits>)

  /** The survey under way: its region, and the coverage query it runs. */
  datatype Running = Running(prefix: Bits, cfg: Lookup.Config, query: Lookup.State)

  datatype State = State(trie: RegionTable.Trie, dues: map<Bits, Instant>, seeded: bool, running: Option<Running>)

  datatype Event = Poll | FindCloserResponse(node: Bits, closer: seq<Bits>) | FindCloserFailure(node: Bits)

  datatype Outcome =
    | Idle(nextDue: Instant)
    | FindCloser(target: Bits, node: Bits)
    | Waiting(nextDue: Instant)
    | Finished(prefix: Bits, nodes: seq<Bits>)
    | Timeout(prefix: Bits)
    | Failed(prefix: Bits)

  function QueryConfig(cfg: Config, region: Bits, target: Bits): Lookup.Config {
    Lookup.Config(cfg.self, target, true, true, |region|, cfg.requestConcurrency, cfg.walkInBound,
                  cfg.requestTimeout, cfg.regionTimeout)
  }

  function QueryEvent(ev: Event): Lookup.Event {
    match ev
    case Poll => Lookup.Poll
    case FindCloserResponse(node, closer) => Lookup.Response(node, closer)
    case FindCloserFailure(node) => Lookup.Failure(node)
  }

  ghost predicate ValidEvent(cfg: Config, ev: Event) {
    match ev
    case Poll => true
    case FindCloserResponse(node, closer) =>
      |node| == cfg.table.keyLen && forall i :: 0 <= i < |closer| ==> |closer[i]| == cfg.table.keyLen
    case FindCloserFailure(node) => |node| == cfg.table.keyLen
  }

  ghost predicate ValidSupply(cfg: Config, supply: Supply) {
    && |supply.seeds| <= cfg.walkInBound
    && (forall i :: 0 <= i < |supply.seeds| ==> |supply.seeds[i]| == cfg.table.keyLen)
    && (forall p: Bits :: supply.mint(p).Some? ==>
          |supply.mint(p).value| == cfg.table.keyLen && HasPrefix(supply.mint(p).value, p))
  }

  /** A survey under way keeps its query's invariant and is not finished. */
  ghost predicate RunningOk(cfg: Config, r: Running) {
    && |r.cfg.target| == cfg.table.keyLen && HasPrefix(r.cfg.target, r.prefix)
    && r.cfg == QueryConfig(cfg, r.prefix, r.cfg.target)
    && LookupProofs.Inv(r.cfg, r.query)
    && !r.query.finished
  }

  // ---------- The schedule ----------

  /** The region due first. */
  ghost function First(dues: map<Bits, Instant>): (p: Bits)
    requires dues != map[]
    ensures FirstDue(dues, p)
  {
    FirstExists(dues);
    var p :| FirstDue(dues, p);
    p
  }

  lemma {:induction false} FirstExists(dues: map<Bits, Instant>)
    requires dues != map[]
    ensures exists p :: FirstDue(dues, p)
    decreases |dues|
  {
    var p :| p in dues;
    var rest := dues - {p};
    assert forall k :: k in dues ==> k == p || (k in rest && rest[k] == dues[k]);
    DueLessOrders();
    if rest == map[] {
      assert FirstDue(dues, p);
    } else {
      FirstExists(rest);
      var q :| FirstDue(rest, q);
      if DueLess(Due(dues[p], p), Due(dues[q], q)) {
        assert FirstDue(dues, p);
      } else {
        assert FirstDue(dues, q);
      }
    }
  }

  lemma {:induction false} StringLessTotal(a: Bits, b: Bits)
    requires a != b
    ensures StringLess(a, b) || StringLess(b, a)
  {
    if |a| > 0 && |b| > 0 && a[0] == b[0] {
      assert a == [a[0]] + a[1..] && b == [b[0]] + b[1..];
      StringLessTotal(a[1..], b[1..]);
    }
  }

  lemma FirstUnique(dues: map<Bits, Instant>, p: Bits)
    requires FirstDue(dues, p)
    ensures dues != map[] && p == First(dues)
  {
    var q := First(dues);
    if p != q {
      StringLessTotal(p, q);
    }
  }

  /** The due times of the first n regions when the schedule is seeded. */
  function SeedDues(regions: seq<Bits>, n: nat, now: Instant, step: nat): map<Bits, Instant>
    requires n <= |regions|
  {
    if n == 0 then map[] else SeedDues(regions, n - 1, now, step)[regions[n - 1] := now + step * (n - 1)]
  }

  /** Seeding spreads the regions' due times across one interval, the first time it is needed. */
  function Seeded(cfg: Config, s: State, now: Instant): State {
    if s.seeded then s else
    var regions := RegionTable.LeafPrefixes(s.trie, []);
    s.(seeded := true,
       dues := if |regions| == 0 then s.dues else s.dues + SeedDues(regions, |regions|, now, cfg.interval / |regions|))
  }

  predicate Related(a: Bits, b: Bits) {
    a <= b || b <= a
  }

  /** The least due time of the removed regions related to a, zero when none is scheduled. */
  function Best(dues: map<Bits, Instant>, removed: seq<Bits>, a: Bits): Instant {
    if |removed| == 0 then 0 else
    var best := Best(dues, removed[..|removed| - 1], a);
    var r := removed[|removed| - 1];
    if Related(a, r) && r in dues && (best == 0 || dues[r] < best) then dues[r] else best
  }

  /** The schedule after a split or merge: removed regions go, added ones take over a due time. */
  function Reconciled(dues: map<Bits, Instant>, removed: seq<Bits>, added: seq<Bits>): map<Bits, Instant> {
    map p | p in dues.Keys + (set a | a in added) && (p in added || p !in removed) ::
      if p in added then Best(dues, removed, p) else dues[p]
  }

  /** The schedule after the map changes from was to next. */
  function Rescheduled(was: RegionTable.Trie, next: RegionTable.Trie, dues: map<Bits, Instant>): map<Bits, Instant> {
    var a, b := RegionTable.LeafPrefixes(was, []), RegionTable.LeafPrefixes(next, []);
    Reconciled(dues, RegionTable.Minus(a, b), RegionTable.Minus(b, a))
  }

  /** The state after a survey of region p found the given members. */
  function Recorded(cfg: Config, s: State, p: Bits, members: seq<Bits>, now: Instant): State
    requires RegionTable.KeysOf(cfg.table, members)
  {
    var next := RegionTable.Observed(cfg.table, s.trie, p, members, now);
    State(next, Rescheduled(s.trie, next, s.dues), s.seeded, None)
  }

  // ---------- One advance ----------

  /** The keys a finished query reports are keys of the keyspace. */
  lemma ReportedKeys(cfg: Config, r: Running, now: Instant, ev: Lookup.Event)
    requires cfg.Valid() && RunningOk(cfg, r) && Lookup.ValidEvent(r.cfg, ev)
    requires Lookup.Advance(r.cfg, r.query, now, ev).1.Finished?
    ensures RegionTable.KeysOf(cfg.table, Lookup.Advance(r.cfg, r.query, now, ev).1.results)
  {
    var nodes := Lookup.Advance(r.cfg, r.query, now, ev).0.nodes;
    if ev.Cancel? {
      LookupResults.ReportableAscending(r.cfg, r.query.nodes, |r.query.nodes|);
    } else {
      LookupProofs.RunningAdvance(r.cfg, r.query, now, ev);
      var a := Lookup.Apply(r.cfg, r.query, ev);
      var j, w := LookupProofs.WalkCases(r.cfg, now, a);
      LookupProofs.SweepKeepsInv(r.cfg, now, a, j, 0);
      LookupResults.ReportableAscending(r.cfg, w.nodes, |w.nodes|);
    }
  }

  /** Advances the running coverage query. */
  function AdvanceQuery(cfg: Config, s: State, r: Running, now: Instant, ev: Lookup.Event): (State, Outcome)
    requires cfg.Valid() && RunningOk(cfg, r) && Lookup.ValidEvent(r.cfg, ev)
  {
    var (q, out) := Lookup.Advance(r.cfg, r.query, now, ev);
    assert out.Finished? ==> RegionTable.KeysOf(cfg.table, out.results) by {
      if out.Finished? {
        ReportedKeys(cfg, r, now, ev);
      }
    }
    Concluded(cfg, s, r.(query := q), out, now)
  }

  /** What the query's report leads to: when it finishes, what it found is recorded. */
  function Concluded(cfg: Config, s: State, r: Running, out: Lookup.Outcome, now: Instant): (State, Outcome)
    requires out.Finished? ==> RegionTable.KeysOf(cfg.table, out.results)
  {
    if out.Dispatches() then (s.(running := Some(r)), FindCloser(r.cfg.target, out.node))
    else if out.Finished? then (Recorded(cfg, s, r.prefix, out.results, now), Finished(r.prefix, out.results))
    else if now > out.deadline then (s.(running := None), Timeout(r.prefix))
    else (s.(running := Some(r)), Waiting(Earlier(out.nextDue, out.deadline)))
  }

  /** The survey of a region as it starts. */
  function Launched(cfg: Config, region: Bits, supply: Supply): (r: Running)
    requires cfg.Valid() && ValidSupply(cfg, supply) && supply.mint(region).Some?
    ensures RunningOk(cfg, r) && r.prefix == region
  {
    var qcfg := QueryConfig(cfg, region, supply.mint(region).value);
    StartOk(cfg, region, supply);
    Running(region, qcfg, Lookup.Start(qcfg, supply.seeds))
  }

  lemma StartOk(cfg: Config, region: Bits, supply: Supply)
    requires cfg.Valid() && ValidSupply(cfg, supply) && supply.mint(region).Some?
    ensures var qcfg := QueryConfig(cfg, region, supply.mint(region).value);
      qcfg.Valid() && RunningOk(cfg, Running(region, qcfg, Lookup.Start(qcfg, supply.seeds)))
  {
    var qcfg := QueryConfig(cfg, region, supply.mint(region).value);
    LookupProofs.InsertAllKeepsGood(qcfg, [], supply.seeds);
    LookupProofs.InsertAllSums(qcfg, [], supply.seeds);
  }

  /** Starts surveying a region, if a key inside it can be had. */
  function StartSurvey(cfg: Config, s: State, region: Bits, now: Instant, supply: Supply): (State, Outcome)
    requires cfg.Valid() && ValidSupply(cfg, supply)
  {
    if supply.mint(region).None? then (s, Failed(region))
    else AdvanceQuery(cfg, s, Launched(cfg, region, supply), now, Lookup.Poll)
  }

  /** The region picked to survey next, if any: the one due first, once it is due. */
  ghost function PickedOf(s: State, now: Instant): Option<Bits> {
    if s.dues == map[] || s.dues[First(s.dues)] > now then None else Some(First(s.dues))
  }

  function PutOff(cfg: Config, s: State, region: Bits, now: Instant): State {
    s.(dues := s.dues[region := now + cfg.interval])
  }

  /** With no survey under way, the region picked is put off by one interval and its survey starts. */
  ghost function StartDue(cfg: Config, s: State, now: Instant, supply: Supply): (State, Outcome)
    requires cfg.Valid() && ValidSupply(cfg, supply)
  {
    match PickedOf(s, now)
    case None => (s, Idle(if s.dues == map[] then 0 else s.dues[First(s.dues)]))
    case Some(region) => StartSurvey(cfg, PutOff(cfg, s, region, now), region, now, supply)
  }

  /** The region an advance picks to survey, if any. */
  ghost function Picked(cfg: Config, s: State, now: Instant): Option<Bits> {
    if s.running.Some? then None else PickedOf(Seeded(cfg, s, now), now)
  }

  /** One advance of the survey. */
  ghost function Advance(cfg: Config, s: State, now: Instant, ev: Event, supply: Supply): (State, Outcome)
    requires cfg.Valid() && ValidEvent(cfg, ev) && ValidSupply(cfg, supply)
    requires s.running.Some? ==> RunningOk(cfg, s.running.value)
  {
    if s.running.Some? then AdvanceQuery(cfg, s, s.running.value, now, QueryEvent(ev))
    else StartDue(cfg, Seeded(cfg, s, now), now, supply)
  }
}
