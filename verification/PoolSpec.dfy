/** What the query pool does: which of its queries an event and a poll advance, and what it reports. */
module PoolSpec {
  import opened Keys
  import opened Clock
  import opened Options
  import Lookup
  import LookupProofs

  type ActivityId = string

  datatype Config = Config(self: Bits, concurrency: nat, timeout: nat, queryConcurrency: nat, requestTimeout: nat)
  {
    predicate Valid() {
      concurrency >= 1 && timeout >= 1 && queryConcurrency >= 1 && requestTimeout >= 1
    }
  }

  /** The number of results a query asks for when its caller does not say. */
  const DEFAULT_NUM_RESULTS: nat := 20

  /** A query in the pool. */
  datatype Slot = Slot(id: ActivityId, cfg: Lookup.Config, q: Lookup.State)

  datatype Event =
    | Poll
    | AddQuery(id: ActivityId, target: Bits, findCloser: bool, seeds: seq<Bits>, numResults: nat)
    | StopQuery(id: ActivityId)
    | NodeResponse(id: ActivityId, node: Bits, closer: seq<Bits>)
    | NodeFailure(id: ActivityId, node: Bits)

  datatype Outcome =
    | Idle(nextDue: Instant)
    | FindCloser(id: ActivityId, target: Bits, node: Bits)
    | SendMessage(id: ActivityId, node: Bits)
    | WaitingAtCapacity(nextDue: Instant)
    | WaitingWithCapacity(nextDue: Instant)
    | QueryFinished(id: ActivityId, nodes: seq<Bits>)
    | QueryTimeout(id: ActivityId)
  {
    predicate Waits() {
      WaitingAtCapacity? || WaitingWithCapacity?
    }
  }

  /** The index of a query, or the number of queries when there is none of that id. */
  function Position(queries: seq<Slot>, id: ActivityId): (i: nat)
    ensures i <= |queries|
    ensures i < |queries| ==> queries[i].id == id
    ensures forall j :: 0 <= j < i ==> queries[j].id != id
  {
    if |queries| == 0 || queries[0].id == id then 0 else 1 + Position(queries[1..], id)
  }

  function Removed(queries: seq<Slot>, i: nat): seq<Slot>
    requires i < |queries|
  {
    queries[..i] + queries[i + 1..]
  }

  /** The earliest time at which a query is due or runs out of time, zero if there is none. */
  function NextDue(queries: seq<Slot>): Instant {
    if |queries| == 0 then 0 else
    var last := queries[|queries| - 1];
    Earlier(Earlier(NextDue(queries[..|queries| - 1]), last.q.nextDue), last.q.deadline)
  }

  ghost predicate Advanceable(queries: seq<Slot>) {
    forall i :: 0 <= i < |queries| ==> LookupProofs.Inv(queries[i].cfg, queries[i].q)
  }

  /** Advances one query. A query that has something to report ends the pool's advance; one that finishes
      or has run out of time leaves the pool. */
  function AdvanceAt(queries: seq<Slot>, i: nat, now: Instant, ev: Lookup.Event): (seq<Slot>, Option<Outcome>)
    requires i < |queries| && LookupProofs.Inv(queries[i].cfg, queries[i].q) && Lookup.ValidEvent(queries[i].cfg, ev)
  {
    var s := queries[i];
    var (q, out) := Lookup.Advance(s.cfg, s.q, now, ev);
    match out
    case AskCloser(node, _) => (queries[i := s.(q := q)], Some(FindCloser(s.id, s.cfg.target, node)))
    case SendMessage(node, _) => (queries[i := s.(q := q)], Some(SendMessage(s.id, node)))
    case Finished(results, _) => (Removed(queries, i), Some(QueryFinished(s.id, results)))
    case WaitingAtCapacity(_, deadline, _) => Waited(queries, i, q, now, deadline)
    case WaitingWithCapacity(_, deadline, _) => Waited(queries, i, q, now, deadline)
  }

  function Waited(queries: seq<Slot>, i: nat, q: Lookup.State, now: Instant, deadline: Instant): (seq<Slot>, Option<Outcome>)
    requires i < |queries|
  {
    if now > deadline then (Removed(queries, i), Some(QueryTimeout(queries[i].id)))
    else (queries[i := queries[i].(q := q)], None)
  }

  /** An advanced query stays with its new state, or leaves the pool. */
  lemma AdvanceAtCases(queries: seq<Slot>, i: nat, now: Instant, ev: Lookup.Event)
    requires i < |queries| && LookupProofs.Inv(queries[i].cfg, queries[i].q) && Lookup.ValidEvent(queries[i].cfg, ev)
    ensures var q := Lookup.Advance(queries[i].cfg, queries[i].q, now, ev).0;
      var (next, out) := AdvanceAt(queries, i, now, ev);
      next == queries[i := queries[i].(q := q)] || (next == Removed(queries, i) && out.Some?)
  {
    hide Lookup.Advance, LookupProofs.Inv, Lookup.ValidEvent;
  }

  lemma AdvanceAtKeeps(queries: seq<Slot>, i: nat, now: Instant, ev: Lookup.Event)
    requires Advanceable(queries) && i < |queries| && now > 0 && Lookup.ValidEvent(queries[i].cfg, ev)
    ensures Advanceable(AdvanceAt(queries, i, now, ev).0)
    ensures AdvanceAt(queries, i, now, ev).1.None? ==> |AdvanceAt(queries, i, now, ev).0| == |queries|
  {
    LookupProofs.AdvanceKeepsInv(queries[i].cfg, queries[i].q, now, ev, 0);
    hide LookupProofs.Inv, Lookup.Advance, Lookup.ValidEvent, AdvanceAt;
    AdvanceAtCases(queries, i, now, ev);
  }

  /** Polls the queries from index i on in order, leaving out the one of the given id, until one has
      something to report or as many wait for responses as may. */
  function PollFrom(cfg: Config, queries: seq<Slot>, i: nat, skip: ActivityId, inFlight: nat, now: Instant): (seq<Slot>, Outcome)
    requires Advanceable(queries) && i <= |queries| && now > 0
    decreases |queries| - i
  {
    if i == |queries| then
      (queries, if inFlight > 0 then WaitingWithCapacity(NextDue(queries)) else Idle(NextDue(queries)))
    else if queries[i].id == skip then PollFrom(cfg, queries, i + 1, skip, inFlight, now)
    else
      AdvanceAtKeeps(queries, i, now, Lookup.Poll);
      var (next, out) := AdvanceAt(queries, i, now, Lookup.Poll);
      if out.Some? then (next, out.value)
      else if inFlight + 1 >= cfg.concurrency then (next, WaitingAtCapacity(NextDue(next)))
      else PollFrom(cfg, next, i + 1, skip, inFlight + 1, now)
  }

  /** A poll of all queries but one, with some counted already. An empty pool is idle. */
  function PollAll(cfg: Config, queries: seq<Slot>, skip: ActivityId, inFlight: nat, now: Instant): (seq<Slot>, Outcome)
    requires Advanceable(queries) && now > 0
  {
    if |queries| == 0 then (queries, Idle(0)) else PollFrom(cfg, queries, 0, skip, inFlight, now)
  }

  function QueryConfig(cfg: Config, target: Bits, findCloser: bool, numResults: nat): Lookup.Config {
    Lookup.Config(cfg.self, target, findCloser, false, 0, cfg.queryConcurrency,
                  if numResults > 0 then numResults else DEFAULT_NUM_RESULTS, cfg.requestTimeout, cfg.timeout)
  }

  /** A query joins the end of the pool, unless its id is in use. */
  function Added(cfg: Config, queries: seq<Slot>, ev: Event): seq<Slot>
    requires cfg.Valid() && ev.AddQuery? && ValidEvent(cfg, queries, ev)
  {
    if Position(queries, ev.id) < |queries| then queries else
    var qcfg := QueryConfig(cfg, ev.target, ev.findCloser, ev.numResults);
    queries + [Slot(ev.id, qcfg, Lookup.Start(qcfg, ev.seeds))]
  }

  ghost predicate ValidEvent(cfg: Config, queries: seq<Slot>, ev: Event) {
    match ev
    case AddQuery(_, target, _, seeds, _) =>
      |target| == |cfg.self| && forall i :: 0 <= i < |seeds| ==> |seeds[i]| == |target|
    case NodeResponse(id, node, closer) =>
      var i := Position(queries, id);
      i < |queries| ==> Lookup.ValidEvent(queries[i].cfg, Lookup.Response(node, closer))
    case NodeFailure(id, node) =>
      var i := Position(queries, id);
      i < |queries| ==> Lookup.ValidEvent(queries[i].cfg, Lookup.Failure(node))
    case _ => true
  }

  function QueryEvent(ev: Event): Lookup.Event
    requires ev.StopQuery? || ev.NodeResponse? || ev.NodeFailure?
  {
    match ev
    case StopQuery(_) => Lookup.Cancel
    case NodeResponse(_, node, closer) => Lookup.Response(node, closer)
    case NodeFailure(_, node) => Lookup.Failure(node)
  }

  /** One advance of the pool. The query an event is for is advanced first, and not again by the poll. */
  function Advance(cfg: Config, queries: seq<Slot>, now: Instant, ev: Event): (seq<Slot>, Outcome)
    requires cfg.Valid() && Advanceable(queries) && ValidEvent(cfg, queries, ev) && now > 0
  {
    match ev
    case Poll => PollAll(cfg, queries, "", 0, now)
    case AddQuery(_, _, _, _, _) =>
      AddedKeeps(cfg, queries, ev);
      PollAll(cfg, Added(cfg, queries, ev), "", 0, now)
    case _ =>
      var i := Position(queries, ev.id);
      if i == |queries| then PollAll(cfg, queries, "", 0, now) else
      AdvanceAtKeeps(queries, i, now, QueryEvent(ev));
      var (next, out) := AdvanceAt(queries, i, now, QueryEvent(ev));
      if out.Some? then (next, out.value) else PollAll(cfg, next, ev.id, 1, now)
  }

  lemma AddedKeeps(cfg: Config, queries: seq<Slot>, ev: Event)
    requires cfg.Valid() && ev.AddQuery? && ValidEvent(cfg, queries, ev) && Advanceable(queries)
    ensures Advanceable(Added(cfg, queries, ev))
  {
    StartOk(cfg, ev.target, ev.findCloser, ev.numResults, ev.seeds);
    hide LookupProofs.Inv, Lookup.Start;
  }

  lemma StartOk(cfg: Config, target: Bits, findCloser: bool, numResults: nat, seeds: seq<Bits>)
    requires cfg.Valid() && |target| == |cfg.self| && forall i :: 0 <= i < |seeds| ==> |seeds[i]| == |target|
    ensures var qcfg := QueryConfig(cfg, target, findCloser, numResults);
      qcfg.Valid() && LookupProofs.Inv(qcfg, Lookup.Start(qcfg, seeds))
  {
    var qcfg := QueryConfig(cfg, target, findCloser, numResults);
    LookupProofs.InsertAllKeepsGood(qcfg, [], seeds);
    LookupProofs.InsertAllSums(qcfg, [], seeds);
  }
}
