/** The pool keeps its bound exactly when it has room for two queries or more. */
module PoolBound {
  import opened Keys
  import opened Clock
  import opened Options
  import opened PoolSpec
  import opened PoolProofs
  import Lookup
  import LookupProofs
  import Query

  /** The query keeps waiting after ev, and within its deadline. */
  ghost predicate KeepsWaiting(s: Slot, now: Instant, ev: Lookup.Event) {
    && LookupProofs.Inv(s.cfg, s.q) && Lookup.ValidEvent(s.cfg, ev)
    && Lookup.Advance(s.cfg, s.q, now, ev).1.Waits() && now <= Lookup.Advance(s.cfg, s.q, now, ev).1.deadline
  }

  /** The query sends a request on ev. */
  ghost predicate WouldSend(s: Slot, now: Instant, ev: Lookup.Event) {
    && LookupProofs.Inv(s.cfg, s.q) && Lookup.ValidEvent(s.cfg, ev)
    && Lookup.Advance(s.cfg, s.q, now, ev).1.Dispatches()
  }

  lemma WaitingStep(queries: seq<Slot>, i: nat, now: Instant, ev: Lookup.Event)
    requires i < |queries| && KeepsWaiting(queries[i], now, ev)
    ensures AdvanceAt(queries, i, now, ev) ==
      (queries[i := queries[i].(q := Lookup.Advance(queries[i].cfg, queries[i].q, now, ev).0)], None)
  {
    hide Lookup.Advance, LookupProofs.Inv, Lookup.ValidEvent;
  }

  lemma SendingStep(queries: seq<Slot>, i: nat, now: Instant, ev: Lookup.Event)
    requires i < |queries| && WouldSend(queries[i], now, ev)
    ensures AdvanceAt(queries, i, now, ev).0 ==
      queries[i := queries[i].(q := Lookup.Advance(queries[i].cfg, queries[i].q, now, ev).0)]
    ensures AdvanceAt(queries, i, now, ev).1.Some?
  {
    hide Lookup.Advance, LookupProofs.Inv, Lookup.ValidEvent;
  }

  /** With room for one query only, a reply that leaves its query waiting lets the next query start: the
      query the reply was for is passed over, and the bound is not checked there. */
  lemma OneIsPassedOver(cfg: Config, queries: seq<Slot>, now: Instant, ev: Event)
    requires cfg.Valid() && cfg.concurrency == 1 && now > 0 && Advanceable(queries) && |queries| == 2
    requires queries[0].id != queries[1].id && (ev.NodeResponse? || ev.NodeFailure?) && ev.id == queries[0].id
    requires ValidEvent(cfg, queries, ev) && KeepsWaiting(queries[0], now, QueryEvent(ev)) && WouldSend(queries[1], now, Lookup.Poll)
    ensures var next := Advance(cfg, queries, now, ev).0;
      && |next| == 2
      && next[0].q == Lookup.Advance(queries[0].cfg, queries[0].q, now, QueryEvent(ev)).0
      && next[1].q == Lookup.Advance(queries[1].cfg, queries[1].q, now, Lookup.Poll).0
  {
    var qev := QueryEvent(ev);
    AdvanceAtKeeps(queries, 0, now, qev);
    WaitingStep(queries, 0, now, qev);
    var next := AdvanceAt(queries, 0, now, qev).0;
    SendingStep(next, 1, now, Lookup.Poll);
    hide Lookup.Advance, LookupProofs.Inv, Lookup.ValidEvent, AdvanceAt, KeepsWaiting, WouldSend, Advanceable;
    assert PollFrom(cfg, next, 1, ev.id, 1, now).0 == AdvanceAt(next, 1, now, Lookup.Poll).0;
  }

  // ---------- A query that knows one node ----------

  /** The query knows only k, has not finished, and has no results to wait for elsewhere. */
  ghost predicate KnowsOne(cfg: Lookup.Config, q: Lookup.State, k: Bits, st: Lookup.NodeState) {
    LookupProofs.Inv(cfg, q) && !q.finished && !cfg.coverage && cfg.findCloser && q.nodes == [Lookup.Node(k, st)]
  }

  lemma StartKnowsOne(cfg: Config, k: Bits)
    requires cfg.Valid() && |k| == |cfg.self| && k != cfg.self
    ensures var qcfg := QueryConfig(cfg, k, true, 0);
      && qcfg.Valid()
      && KnowsOne(qcfg, Lookup.Start(qcfg, [k]), k, Lookup.NotContacted)
      && Lookup.Start(qcfg, [k]).stats.start == 0
  {
    StartOk(cfg, k, true, 0, [k]);
    var qcfg := QueryConfig(cfg, k, true, 0);
    assert [k][..0] == [];
    assert Lookup.InsertAll(qcfg, [], []) == [];
    assert Lookup.InsertAll(qcfg, [], [k]) == [Lookup.Node(k, Lookup.NotContacted)];
    hide LookupProofs.Inv, Lookup.InsertAll;
  }

  /** Polled before it has asked anybody, it asks the one node it knows. */
  lemma AsksTheOne(s: Slot, k: Bits, now: Instant)
    requires KnowsOne(s.cfg, s.q, k, Lookup.NotContacted) && now > 0
    ensures WouldSend(s, now, Lookup.Poll)
    ensures var q := Lookup.Advance(s.cfg, s.q, now, Lookup.Poll).0;
      && KnowsOne(s.cfg, q, k, Lookup.Waiting(now + s.cfg.requestTimeout)) && q.inFlight == 1
      && (s.q.stats.start == 0 ==> q.deadline >= now)
  {
    LookupProofs.AdvanceKeepsInv(s.cfg, s.q, now, Lookup.Poll, 0);
    PollApplies(s.cfg, s.q);
    LookupProofs.RunningAdvance(s.cfg, s.q, now, Lookup.Poll);
    WalkAsksTheOne(s.cfg, s.q, k, now);
    hide LookupProofs.Inv, Lookup.Advance, Lookup.Walk;
  }

  lemma WalkAsksTheOne(cfg: Lookup.Config, q: Lookup.State, k: Bits, now: Instant)
    requires KnowsOne(cfg, q, k, Lookup.NotContacted) && now > 0
    ensures cfg.Valid() && Lookup.Fits(cfg.target, q.nodes)
    ensures var (q', out) := Lookup.Walk(cfg, now, q);
      && out.Dispatches() && !q'.finished && q'.inFlight == 1
      && (q.stats.start == 0 ==> q'.deadline >= now)
      && q'.nodes == [Lookup.Node(k, Lookup.Waiting(now + cfg.requestTimeout))]
  {
    assert Lookup.Sum(Lookup.Waits, q.nodes, 1) == 0;
    assert Lookup.StopsAt(cfg, now, q, 0);
    assert Lookup.StopIndex(cfg, now, q, 0) == 0;
    assert Lookup.Swept(now, q, 0) == q;
    hide Lookup.StopIndex, Lookup.StopsAt, Lookup.Sum, Distance, CommonPrefixLength, Lookup.Swept, Lookup.Ascending;
  }

  // ---------- It hears of another ----------

  /** The query has its answer from k, has asked j, and knows nobody else. */
  ghost predicate AsksAnother(s: Slot, k: Bits, j: Bits, now: Instant) {
    && LookupProofs.Inv(s.cfg, s.q) && !s.q.finished && !s.cfg.coverage && s.cfg.findCloser && s.cfg.numResults > 1
    && j != k && j != s.cfg.self && |j| == |s.cfg.target| == |k|
    && s.q.nodes == [Lookup.Node(k, Lookup.Succeeded), Lookup.Node(j, Lookup.Waiting(now + s.cfg.requestTimeout))]
    && s.q.inFlight == 1 && s.q.deadline >= now
  }

  lemma {:induction false} SelfDistance(k: Bits)
    ensures Distance(k, k) == 0
  {
    if |k| > 0 {
      SelfDistance(k[1..]);
    }
  }

  /** The one node it knows replies and names another: that is asked. */
  lemma AsksTheOther(s: Slot, k: Bits, j: Bits, now: Instant)
    requires KnowsOne(s.cfg, s.q, k, Lookup.Waiting(now + s.cfg.requestTimeout)) && now > 0 && s.cfg.numResults > 1
    requires s.q.inFlight == 1 && s.q.deadline >= now && s.cfg.target == k
    requires |j| == |k| && j != k && j != s.cfg.self
    ensures WouldSend(s, now, Lookup.Response(k, [j]))
    ensures AsksAnother(s.(q := Lookup.Advance(s.cfg, s.q, now, Lookup.Response(k, [j])).0), k, j, now)
  {
    var ev := Lookup.Response(k, [j]);
    Learns(s.cfg, s.q, k, j);
    LookupProofs.AdvanceKeepsInv(s.cfg, s.q, now, ev, 0);
    LookupProofs.RunningAdvance(s.cfg, s.q, now, ev);
    var a := Lookup.Apply(s.cfg, s.q, ev);
    OtherIsNext(s.cfg, a, k, j, now);
    Query.WalkAsks(s.cfg, now, a, 1);
    hide LookupProofs.Inv, Lookup.Advance, Lookup.Walk, Lookup.Apply, Lookup.StopIndex, Lookup.RegionExhausted;
  }

  lemma Learns(cfg: Lookup.Config, q: Lookup.State, k: Bits, j: Bits)
    requires LookupProofs.Inv(cfg, q) && |q.nodes| == 1 && q.nodes[0].key == k && q.nodes[0].state.Waiting?
    requires cfg.target == k && |j| == |k| && j != k && j != cfg.self
    ensures cfg.Valid() && Lookup.Ascending(cfg.target, q.nodes) && Lookup.ValidEvent(cfg, Lookup.Response(k, [j]))
    ensures Lookup.Apply(cfg, q, Lookup.Response(k, [j])) ==
      q.(nodes := [Lookup.Node(k, Lookup.Succeeded), Lookup.Node(j, Lookup.NotContacted)],
         inFlight := q.inFlight - 1, stats := q.stats.(success := q.stats.success + 1))
  {
    SelfDistance(k);
    if Distance(j, k) == Distance(k, k) {
      DistanceInjective(k, j, k);
    }
    var n, both := q.nodes, q.nodes + [Lookup.Node(j, Lookup.NotContacted)];
    assert [j][..0] == [];
    assert Lookup.InsertAll(cfg, n, []) == n;
    assert Lookup.InsertAll(cfg, n, [j]) == both;
    assert Lookup.IndexOf(n, k) == 0 && Lookup.IndexOf(both, k) == 0;
    hide Lookup.InsertAll, Lookup.IndexOf, Distance, Lookup.Ascending, LookupProofs.GoodNodes, LookupProofs.Balanced;
  }

  lemma OtherIsNext(cfg: Lookup.Config, a: Lookup.State, k: Bits, j: Bits, now: Instant)
    requires cfg.Valid() && !cfg.coverage && cfg.numResults > 1 && a.inFlight == 0 && |j| == |cfg.target| == |k|
    requires a.nodes == [Lookup.Node(k, Lookup.Succeeded), Lookup.Node(j, Lookup.NotContacted)]
    ensures Lookup.Fits(cfg.target, a.nodes) && Lookup.StopIndex(cfg, now, a, 0) == Lookup.StopIndex(cfg, now, a, 1)
    ensures !Lookup.RegionExhausted(cfg, now, a, 1) && Lookup.InFlightAt(now, a, 1) == 0
    ensures Lookup.Swept(now, a, 1) == a
  {
    assert Lookup.Sum(Lookup.Expiring(now), a.nodes, 1) == 0;
    assert !Lookup.StopsAt(cfg, now, a, 0);
    hide Lookup.Sum, CommonPrefixLength;
  }

  /** Having asked it, the query waits on a poll, and on a repeated reply from k. */
  lemma WaitsForTheOther(s: Slot, k: Bits, j: Bits, now: Instant, ev: Lookup.Event)
    requires AsksAnother(s, k, j, now) && now > 0 && (ev.Poll? || ev == Lookup.Response(k, [j]))
    ensures KeepsWaiting(s, now, ev)
    ensures AsksAnother(s.(q := Lookup.Advance(s.cfg, s.q, now, ev).0), k, j, now)
  {
    LookupProofs.AdvanceKeepsInv(s.cfg, s.q, now, ev, 0);
    IgnoresRepeats(s.cfg, s.q, k, j, ev);
    LookupProofs.RunningAdvance(s.cfg, s.q, now, ev);
    WalkWaitsForTheOther(s, k, j, now);
    hide LookupProofs.Inv, Lookup.Advance, Lookup.Walk, Lookup.Apply;
  }

  lemma IgnoresRepeats(cfg: Lookup.Config, q: Lookup.State, k: Bits, j: Bits, ev: Lookup.Event)
    requires LookupProofs.Inv(cfg, q) && |q.nodes| == 2 && q.nodes[0] == Lookup.Node(k, Lookup.Succeeded) && |k| == |j| == |cfg.target|
    requires ev.Poll? || ev == Lookup.Response(k, [j])
    ensures cfg.Valid() && Lookup.Ascending(cfg.target, q.nodes) && Lookup.ValidEvent(cfg, ev)
    ensures Lookup.Apply(cfg, q, ev) == q
  {
  }

  lemma WalkWaitsForTheOther(s: Slot, k: Bits, j: Bits, now: Instant)
    requires AsksAnother(s, k, j, now)
    ensures s.cfg.Valid() && Lookup.Fits(s.cfg.target, s.q.nodes)
    ensures var (q', out) := Lookup.Walk(s.cfg, now, s.q);
      && out.Waits() && out.deadline == s.q.deadline && q' == s.q.(nextDue := q'.nextDue)
  {
    var cfg, q := s.cfg, s.q;
    assert Lookup.Sum(Lookup.Expiring(now), q.nodes, 1) == 0;
    assert Lookup.Sum(Lookup.Expiring(now), q.nodes, 2) == 0;
    assert !Lookup.StopsAt(cfg, now, q, 0);
    assert Lookup.StopsAt(cfg, now, q, 1) || Lookup.StopIndex(cfg, now, q, 2) == 2;
    var i := Lookup.StopIndex(cfg, now, q, 0);
    assert i == 1 || i == 2;
    LookupProofs.NoneExpires(now, q.nodes, i);
    assert Lookup.Swept(now, q, i) == q;
    hide Lookup.StopIndex, Lookup.StopsAt, Lookup.Sum, Distance, CommonPrefixLength, Lookup.Swept, Lookup.Ascending, LookupProofs.Inv;
  }

  // ---------- A run that goes over the bound ----------

  /** A reply, first or repeated, in time or late, is from a node that its query has asked. */
  ghost predicate FromAsked(queries: seq<Slot>, ev: Event) {
    (ev.NodeResponse? || ev.NodeFailure?) && Position(queries, ev.id) < |queries| ==>
      exists n :: n in queries[Position(queries, ev.id)].q.nodes && n.key == ev.node && !n.state.NotContacted?
  }

  ghost predicate AskedStep(cfg: Config, a: seq<Slot>, b: seq<Slot>) {
    && cfg.Valid() && Advanceable(a)
    && exists now, ev :: now > 0 && ExpectedEvent(cfg, a, ev) && FromAsked(a, ev) && b == Advance(cfg, a, now, ev).0
  }

  /** A run in which only nodes that were asked reply. */
  ghost predicate IsAskedRun(cfg: Config, run: seq<seq<Slot>>) {
    |run| > 0 && run[0] == [] && forall i :: 0 < i < |run| ==> AskedStep(cfg, run[i - 1], run[i])
  }

  lemma AskedRunIsRun(cfg: Config, run: seq<seq<Slot>>)
    requires IsAskedRun(cfg, run)
    ensures IsRun(cfg, run)
  {
    forall i | 0 < i < |run| ensures PoolStep(cfg, run[i - 1], run[i]) {
      assert AskedStep(cfg, run[i - 1], run[i]);
      hide Advance, ExpectedEvent, FromAsked;
    }
  }

  /** Two keys that are not self: self with one bit turned. */
  function Turned(cfg: Config, i: nat): Bits
    requires i < |cfg.self|
  {
    cfg.self[i := !cfg.self[i]]
  }

  function Ask(id: ActivityId, k: Bits): Event {
    AddQuery(id, k, true, [k], 0)
  }

  predicate TwoOthers(cfg: Config, k: Bits, j: Bits) {
    |k| == |j| == |cfg.self| && k != cfg.self && j != cfg.self && j != k
  }

  /** One query, which has asked the one node it knows. */
  ghost predicate Alone(cfg: Config, queries: seq<Slot>, k: Bits) {
    && |queries| == 1 && queries[0].id == "a" && queries[0].cfg == QueryConfig(cfg, k, true, 0)
    && KnowsOne(queries[0].cfg, queries[0].q, k, Lookup.Waiting(1 + cfg.requestTimeout))
    && queries[0].q.inFlight == 1 && queries[0].q.deadline >= 1
  }

  /** One query, which has its answer and has asked another node. */
  ghost predicate Further(cfg: Config, queries: seq<Slot>, k: Bits, j: Bits) {
    && |queries| == 1 && queries[0].id == "a" && queries[0].cfg == QueryConfig(cfg, k, true, 0)
    && AsksAnother(queries[0], k, j, 1)
  }

  /** Two queries for one target: the first waits for its second node, and the second has not asked its first. */
  ghost predicate Crowded(cfg: Config, queries: seq<Slot>, k: Bits, j: Bits) {
    && |queries| == 2 && queries[0].id == "a" && queries[1].id == "b"
    && queries[0].cfg == queries[1].cfg == QueryConfig(cfg, k, true, 0)
    && AsksAnother(queries[0], k, j, 1)
    && KnowsOne(queries[1].cfg, queries[1].q, k, Lookup.NotContacted)
  }

  lemma MakeStep(cfg: Config, a: seq<Slot>, now: Instant, ev: Event)
    requires cfg.Valid() && Advanceable(a) && now > 0 && ExpectedEvent(cfg, a, ev) && FromAsked(a, ev)
    ensures AskedStep(cfg, a, Advance(cfg, a, now, ev).0)
  {
    hide Advance, ExpectedEvent, Advanceable, FromAsked;
  }

  /** The first query is added and asks at once. */
  lemma FirstAsks(cfg: Config, k: Bits) returns (next: seq<Slot>)
    requires cfg.Valid() && |k| == |cfg.self| && k != cfg.self
    ensures AskedStep(cfg, [], next) && Alone(cfg, next, k)
  {
    var slot := AddedAlone(cfg, k);
    AddedKeeps(cfg, [], Ask("a", k));
    hide *;
    AsksTheOne(slot, k, 1);
    SendingStep([slot], 0, 1, Lookup.Poll);
    PollsTheAdded(cfg, Ask("a", k), slot);
    next := Advance(cfg, [], 1, Ask("a", k)).0;
    MakeStep(cfg, [], 1, Ask("a", k));
    IsAlone(cfg, slot, Lookup.Advance(slot.cfg, slot.q, 1, Lookup.Poll).0, k);
  }

  lemma AddedAlone(cfg: Config, k: Bits) returns (slot: Slot)
    requires cfg.Valid() && |k| == |cfg.self| && k != cfg.self
    ensures ExpectedEvent(cfg, [], Ask("a", k)) && FromAsked([], Ask("a", k)) && Advanceable([])
    ensures Ask("a", k).AddQuery? && ValidEvent(cfg, [], Ask("a", k)) && Added(cfg, [], Ask("a", k)) == [slot]
    ensures slot.id == "a" && slot.cfg == QueryConfig(cfg, k, true, 0)
    ensures KnowsOne(slot.cfg, slot.q, k, Lookup.NotContacted) && slot.q.stats.start == 0
  {
    var qcfg := QueryConfig(cfg, k, true, 0);
    StartKnowsOne(cfg, k);
    slot := Slot("a", qcfg, Lookup.Start(qcfg, [k]));
    hide LookupProofs.Inv, Lookup.Start;
  }

  lemma PollsTheAdded(cfg: Config, ev: Event, slot: Slot)
    requires cfg.Valid() && ev.AddQuery? && ValidEvent(cfg, [], ev) && Added(cfg, [], ev) == [slot] && slot.id == "a"
    requires Advanceable([]) && Advanceable([slot]) && WouldSend(slot, 1, Lookup.Poll) && AdvanceAt([slot], 0, 1, Lookup.Poll).1.Some?
    ensures Advance(cfg, [], 1, ev).0 == AdvanceAt([slot], 0, 1, Lookup.Poll).0
  {
    hide AdvanceAt, LookupProofs.Inv, Lookup.ValidEvent, Lookup.Advance;
  }

  lemma IsAlone(cfg: Config, slot: Slot, q: Lookup.State, k: Bits)
    requires slot.id == "a" && slot.cfg == QueryConfig(cfg, k, true, 0)
    requires KnowsOne(slot.cfg, q, k, Lookup.Waiting(1 + slot.cfg.requestTimeout)) && q.inFlight == 1 && q.deadline >= 1
    ensures Alone(cfg, [slot][0 := [slot][0].(q := q)], k)
  {
    hide KnowsOne;
  }

  /** Its node replies and names another, which is asked. */
  lemma FirstReplies(cfg: Config, queries: seq<Slot>, k: Bits, j: Bits) returns (next: seq<Slot>)
    requires cfg.Valid() && TwoOthers(cfg, k, j) && Alone(cfg, queries, k)
    ensures AskedStep(cfg, queries, next) && Further(cfg, next, k, j)
  {
    var ev, s := NodeResponse("a", k, [j]), queries[0];
    ReplyFits(cfg, queries, k, j);
    AloneAdvances(cfg, queries, k);
    hide *;
    AsksTheOther(s, k, j, 1);
    EventAdvances(cfg, queries, 0, 1, ev);
    SendingStep(queries, 0, 1, Lookup.Response(k, [j]));
    next := Advance(cfg, queries, 1, ev).0;
    MakeStep(cfg, queries, 1, ev);
    GoneFurther(cfg, queries, k, j, Lookup.Advance(s.cfg, s.q, 1, Lookup.Response(k, [j])).0);
  }

  lemma ReplyFits(cfg: Config, queries: seq<Slot>, k: Bits, j: Bits)
    requires cfg.Valid() && TwoOthers(cfg, k, j) && Alone(cfg, queries, k)
    ensures |queries| == 1
    ensures var s := queries[0];
      && KnowsOne(s.cfg, s.q, k, Lookup.Waiting(1 + s.cfg.requestTimeout)) && s.cfg.numResults > 1
      && s.q.inFlight == 1 && s.q.deadline >= 1 && s.cfg.target == k && |j| == |k| && j != k && j != s.cfg.self
    ensures QueryEvent(NodeResponse("a", k, [j])) == Lookup.Response(k, [j])
    ensures ExpectedEvent(cfg, queries, NodeResponse("a", k, [j])) && FromAsked(queries, NodeResponse("a", k, [j]))
    ensures Position(queries, "a") == 0
  {
    AloneQuery(cfg, queries, k);
    OnePosition(queries, "a");
    hide Alone, KnowsOne, Position;
    AsksKnown(queries[0], k, 1 + queries[0].cfg.requestTimeout);
  }

  lemma AloneQuery(cfg: Config, queries: seq<Slot>, k: Bits)
    requires Alone(cfg, queries, k)
    ensures |queries| == 1 && queries[0].id == "a" && queries[0].cfg == QueryConfig(cfg, k, true, 0)
    ensures KnowsOne(queries[0].cfg, queries[0].q, k, Lookup.Waiting(1 + queries[0].cfg.requestTimeout))
    ensures queries[0].q.inFlight == 1 && queries[0].q.deadline >= 1
  {
    hide KnowsOne;
  }

  lemma OnePosition(queries: seq<Slot>, id: ActivityId)
    requires |queries| == 1 && queries[0].id == id
    ensures Position(queries, id) == 0
  {
  }

  lemma AsksKnown(s: Slot, k: Bits, deadline: Instant)
    requires KnowsOne(s.cfg, s.q, k, Lookup.Waiting(deadline))
    ensures exists n :: n in s.q.nodes && n.key == k && !n.state.NotContacted?
  {
    var n := s.q.nodes[0];
    assert n in s.q.nodes && n.key == k && !n.state.NotContacted?;
    hide LookupProofs.Inv;
  }

  lemma AloneAdvances(cfg: Config, queries: seq<Slot>, k: Bits)
    requires Alone(cfg, queries, k)
    ensures Advanceable(queries)
  {
    hide LookupProofs.Inv;
  }

  lemma GoneFurther(cfg: Config, queries: seq<Slot>, k: Bits, j: Bits, q: Lookup.State)
    requires Alone(cfg, queries, k) && AsksAnother(queries[0].(q := q), k, j, 1)
    ensures Further(cfg, queries[0 := queries[0].(q := q)], k, j)
  {
    hide AsksAnother, KnowsOne;
  }

  /** The second query is added behind it, and the poll stops at the first. */
  lemma SecondWaits(cfg: Config, queries: seq<Slot>, k: Bits, j: Bits) returns (next: seq<Slot>)
    requires cfg.Valid() && cfg.concurrency == 1 && TwoOthers(cfg, k, j) && Further(cfg, queries, k, j)
    ensures AskedStep(cfg, queries, next) && Crowded(cfg, next, k, j)
  {
    var ev, qcfg := Ask("b", k), QueryConfig(cfg, k, true, 0);
    assert "a"[0] != "b"[0];
    assert Position(queries, "b") == 1;
    StartKnowsOne(cfg, k);
    AddedKeeps(cfg, queries, ev);
    var all := queries + [Slot("b", qcfg, Lookup.Start(qcfg, [k]))];
    assert Added(cfg, queries, ev) == all;
    WaitsForTheOther(queries[0], k, j, 1, Lookup.Poll);
    hide LookupProofs.Inv, Lookup.Advance, Lookup.Start, AdvanceAt, KeepsWaiting;
    WaitingStep(all, 0, 1, Lookup.Poll);
    next := Advance(cfg, queries, 1, ev).0;
    MakeStep(cfg, queries, 1, ev);
  }

  /** The reply comes again: it leaves the first query waiting and starts the second. */
  lemma BothAsk(cfg: Config, queries: seq<Slot>, k: Bits, j: Bits) returns (next: seq<Slot>)
    requires cfg.Valid() && cfg.concurrency == 1 && TwoOthers(cfg, k, j) && Crowded(cfg, queries, k, j)
    ensures AskedStep(cfg, queries, next) && |next| == 2 && Active(next[0]) && Active(next[1])
  {
    var ev, s := NodeResponse("a", k, [j]), queries[0];
    RepeatFits(cfg, queries, k, j);
    hide *;
    WaitsForTheOther(s, k, j, 1, Lookup.Response(k, [j]));
    AsksTheOne(queries[1], k, 1);
    OneIsPassedOver(cfg, queries, 1, ev);
    next := Advance(cfg, queries, 1, ev).0;
    MakeStep(cfg, queries, 1, ev);
    BothActive(cfg, queries, next, k, j);
  }

  lemma RepeatFits(cfg: Config, queries: seq<Slot>, k: Bits, j: Bits)
    requires cfg.Valid() && TwoOthers(cfg, k, j) && Crowded(cfg, queries, k, j)
    ensures var ev, s := NodeResponse("a", k, [j]), queries[0];
      && |queries| == 2 && queries[0].id == "a" && queries[0].id != queries[1].id
      && QueryEvent(ev) == Lookup.Response(k, [j]) && ValidEvent(cfg, queries, ev)
      && Advanceable(queries) && ExpectedEvent(cfg, queries, ev) && FromAsked(queries, ev)
      && AsksAnother(s, k, j, 1) && KnowsOne(queries[1].cfg, queries[1].q, k, Lookup.NotContacted)
  {
    assert "a"[0] != "b"[0];
    assert Position(queries, "a") == 0;
    var q := queries[0].q;
    assert q.nodes[0] in q.nodes && q.nodes[0].key == k && !q.nodes[0].state.NotContacted?;
    hide LookupProofs.Inv;
  }

  lemma BothActive(cfg: Config, queries: seq<Slot>, next: seq<Slot>, k: Bits, j: Bits)
    requires |queries| == 2 && |next| == 2 && next[1].q.inFlight == 1
    requires AsksAnother(queries[0].(q := next[0].q), k, j, 1)
    ensures Active(next[0]) && Active(next[1])
  {
    hide LookupProofs.Inv;
  }

  lemma TurnedKeys(cfg: Config)
    requires |cfg.self| > 1
    ensures TwoOthers(cfg, Turned(cfg, 0), Turned(cfg, 1))
  {
    assert Turned(cfg, 0)[0] != cfg.self[0] == Turned(cfg, 1)[0] && Turned(cfg, 1)[1] != cfg.self[1];
  }

  /** With room for one, a pool can come to have two queries with requests out, though only nodes that were
      asked reply: it takes a reply that comes twice. */
  lemma OneIsNotEnough(cfg: Config) returns (run: seq<seq<Slot>>)
    requires cfg.Valid() && cfg.concurrency == 1 && |cfg.self| > 1
    ensures IsAskedRun(cfg, run) && |run| == 5
    ensures |run[4]| == 2 && Active(run[4][0]) && Active(run[4][1])
  {
    hide *;
    var k, j := Turned(cfg, 0), Turned(cfg, 1);
    TurnedKeys(cfg);
    Others(cfg, k, j);
    var one := FirstAsks(cfg, k);
    var two := FirstReplies(cfg, one, k, j);
    var three := SecondWaits(cfg, two, k, j);
    var four := BothAsk(cfg, three, k, j);
    run := [[], one, two, three, four];
    FourSteps(cfg, one, two, three, four);
  }

  lemma Others(cfg: Config, k: Bits, j: Bits)
    requires TwoOthers(cfg, k, j)
    ensures |k| == |cfg.self| && k != cfg.self
  {
  }

  lemma FourSteps(cfg: Config, one: seq<Slot>, two: seq<Slot>, three: seq<Slot>, four: seq<Slot>)
    requires AskedStep(cfg, [], one) && AskedStep(cfg, one, two) && AskedStep(cfg, two, three) && AskedStep(cfg, three, four)
    ensures IsAskedRun(cfg, [[], one, two, three, four])
  {
    hide AskedStep;
  }

  /** The queries that have requests out are the first few and no more than allowed, in every state of
      every run, exactly when the pool has room for two: whether any node may reply to a started query, or
      only one that it has asked. */
  lemma BoundExactly(cfg: Config)
    requires cfg.Valid() && |cfg.self| > 1
    ensures (forall run, i :: IsRun(cfg, run) && 0 <= i < |run| ==> Bounded(cfg, run[i])) <==> cfg.concurrency >= 2
    ensures (forall run, i :: IsAskedRun(cfg, run) && 0 <= i < |run| ==> Bounded(cfg, run[i])) <==> cfg.concurrency >= 2
  {
    hide PoolOk, IsRun, IsAskedRun;
    if cfg.concurrency >= 2 {
      forall run, i | IsRun(cfg, run) && 0 <= i < |run| ensures Bounded(cfg, run[i]) {
        var m := AlwaysBounded(cfg, run, i);
      }
      forall run | IsAskedRun(cfg, run) ensures IsRun(cfg, run) {
        AskedRunIsRun(cfg, run);
      }
    } else {
      var run := OneIsNotEnough(cfg);
      AskedRunIsRun(cfg, run);
      if Bounded(cfg, run[4]) {
        var m :| PoolOk(cfg, run[4], m);
        TwoActive(cfg, run[4], m);
      }
    }
  }

  ghost predicate Bounded(cfg: Config, queries: seq<Slot>) {
    exists m: nat :: PoolOk(cfg, queries, m)
  }

  lemma TwoActive(cfg: Config, queries: seq<Slot>, m: nat)
    requires PoolOk(cfg, queries, m) && |queries| == 2 && Active(queries[0]) && Active(queries[1])
    ensures cfg.concurrency >= 2
  {
    assert Active(queries[1]) <==> 1 < m;
  }
}
