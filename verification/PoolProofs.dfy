/** The pool's bound on the queries that wait for responses, and when the pool may sleep. */
module PoolProofs {
  import opened Clock
  import opened Options
  import Lookup
  import LookupProofs
  import LookupResults
  import opened PoolSpec

  // ---------- One query ----------

  /** A query that has not finished has requests out after every advance, and one without any does not wait. */
  lemma StillWaits(cfg: Lookup.Config, q: Lookup.State, now: Instant, ev: Lookup.Event)
    requires LookupProofs.Inv(cfg, q) && !q.finished && now > 0 && Lookup.ValidEvent(cfg, ev)
    ensures var (q', out) := Lookup.Advance(cfg, q, now, ev);
      && (!out.Finished? ==> q'.inFlight > 0 && !q'.finished)
      && (ev.Cancel? ==> out.Finished?)
      && (ev.Poll? && q.inFlight == 0 ==> !out.Waits())
  {
    if !ev.Cancel? {
      LookupProofs.RunningAdvance(cfg, q, now, ev);
      var a := Lookup.Apply(cfg, q, ev);
      assert ev.Poll? ==> a == q;
      hide *;
      WalkWaits(cfg, a, now);
    }
  }

  lemma WalkWaits(cfg: Lookup.Config, a: Lookup.State, now: Instant)
    requires LookupProofs.Inv(cfg, a) && !a.finished && now > 0
    ensures cfg.Valid() && Lookup.Fits(cfg.target, a.nodes)
    ensures var (q', out) := Lookup.Walk(cfg, now, a);
      && (!out.Finished? ==> q'.inFlight > 0 && !q'.finished)
      && (a.inFlight == 0 ==> !out.Waits())
  {
    var j, w := LookupProofs.WalkCases(cfg, now, a);
    LookupProofs.SweepKeepsInv(cfg, now, a, j, 0);
    assert w.inFlight >= 0 && w.inFlight <= a.inFlight;
    if Lookup.Walk(cfg, now, a).1.Waits() {
      LookupResults.WaitsForSome(cfg, now, a, j);
    }
    hide Lookup.Walk, LookupProofs.GoodNodes, LookupProofs.Balanced;
  }

  /** A query whose last report was that it waits: a poll up to its due time changes nothing and reports the same. */
  ghost predicate Sleeps(s: Slot) {
    && LookupProofs.Inv(s.cfg, s.q)
    && s.q.nextDue > 0 && s.q.deadline > 0
    && exists o: Lookup.Outcome :: SleepsWith(s, o)
  }

  ghost predicate SleepsWith(s: Slot, o: Lookup.Outcome)
    requires LookupProofs.Inv(s.cfg, s.q)
  {
    && o.Waits() && o.deadline == s.q.deadline
    && forall t: Instant :: t <= s.q.nextDue ==> Lookup.Advance(s.cfg, s.q, t, Lookup.Poll) == (s.q, o)
  }

  lemma WaitSleeps(s: Slot, now: Instant, ev: Lookup.Event)
    requires LookupProofs.Inv(s.cfg, s.q) && !s.q.finished && now > 0 && Lookup.ValidEvent(s.cfg, ev)
    requires Lookup.Advance(s.cfg, s.q, now, ev).1.Waits()
    ensures Sleeps(s.(q := Lookup.Advance(s.cfg, s.q, now, ev).0))
  {
    var (q', out) := Lookup.Advance(s.cfg, s.q, now, ev);
    LookupProofs.AdvanceKeepsInv(s.cfg, s.q, now, ev, 0);
    StillWaits(s.cfg, s.q, now, ev);
    ReportedTimes(s.cfg, s.q, now, ev);
    assert q'.deadline > 0;
    hide *;
    forall t: Instant | t <= q'.nextDue
      ensures Lookup.Ascending(s.cfg.target, q'.nodes) && s.cfg.Valid() && Lookup.ValidEvent(s.cfg, Lookup.Poll)
      ensures Lookup.Advance(s.cfg, q', t, Lookup.Poll) == (q', out)
    {
      LookupResults.SleepIsSafe(s.cfg, s.q, now, ev, t);
      PollIsValid(s.cfg, q');
    }
    MakeSleeps(s.(q := q'), out);
  }

  lemma PollIsValid(cfg: Lookup.Config, q: Lookup.State)
    requires LookupProofs.Inv(cfg, q)
    ensures cfg.Valid() && Lookup.Ascending(cfg.target, q.nodes) && Lookup.ValidEvent(cfg, Lookup.Poll)
  {
  }

  lemma MakeSleeps(s: Slot, o: Lookup.Outcome)
    requires LookupProofs.Inv(s.cfg, s.q) && s.q.nextDue > 0 && s.q.deadline > 0
    requires o.WaitingAtCapacity? || o.WaitingWithCapacity?
    requires o.deadline == s.q.deadline
    requires forall t: Instant :: t <= s.q.nextDue ==> Lookup.Advance(s.cfg, s.q, t, Lookup.Poll) == (s.q, o)
    ensures Sleeps(s)
  {
    hide Lookup.Advance;
    assert SleepsWith(s, o);
  }

  lemma ReportedTimes(cfg: Lookup.Config, q: Lookup.State, now: Instant, ev: Lookup.Event)
    requires LookupProofs.Inv(cfg, q) && !q.finished && now > 0 && Lookup.ValidEvent(cfg, ev)
    requires Lookup.Advance(cfg, q, now, ev).1.Waits()
    ensures var (q', out) := Lookup.Advance(cfg, q, now, ev);
      out.deadline == q'.deadline && out.nextDue == q'.nextDue > 0
  {
    LookupProofs.AdvanceKeepsInv(cfg, q, now, ev, 0);
    LookupResults.SleepIsSafe(cfg, q, now, ev, 0);
    PositiveDeadlines(cfg, Lookup.Advance(cfg, q, now, ev).0);
    LookupProofs.RunningAdvance(cfg, q, now, ev);
    hide LookupProofs.Inv, Lookup.Apply, Lookup.Advance, Lookup.Ascending, Lookup.ValidEvent, Lookup.StopIndex, Lookup.Swept;
  }

  lemma PositiveDeadlines(cfg: Lookup.Config, q: Lookup.State)
    requires LookupProofs.Inv(cfg, q)
    ensures forall n :: n in q.nodes && n.state.Waiting? ==> n.state.deadline > 0
  {
  }

  // ---------- The bound ----------

  ghost predicate Active(s: Slot) {
    s.q.inFlight > 0
  }

  ghost predicate SlotOk(s: Slot) {
    LookupProofs.Inv(s.cfg, s.q) && !s.q.finished && s.id != ""
  }

  ghost predicate DistinctIds(queries: seq<Slot>) {
    forall i, j :: 0 <= i < j < |queries| ==> queries[i].id != queries[j].id
  }

  /** The queries that have requests out are the first m, no more than the pool allows. */
  ghost predicate PoolOk(cfg: Config, queries: seq<Slot>, m: nat) {
    && cfg.Valid() && m <= |queries| && m <= cfg.concurrency
    && (forall i :: 0 <= i < |queries| ==> SlotOk(queries[i]))
    && DistinctIds(queries)
    && (forall i :: 0 <= i < |queries| ==> (Active(queries[i]) <==> i < m))
  }

  lemma OkAdvanceable(cfg: Config, queries: seq<Slot>, m: nat)
    requires PoolOk(cfg, queries, m)
    ensures Advanceable(queries)
  {
    hide LookupProofs.Inv;
  }

  lemma PollApplies(cfg: Lookup.Config, q: Lookup.State)
    requires LookupProofs.Inv(cfg, q)
    ensures cfg.Valid() && Lookup.Ascending(cfg.target, q.nodes) && Lookup.ValidEvent(cfg, Lookup.Poll)
    ensures Lookup.Apply(cfg, q, Lookup.Poll) == q
  {
  }

  lemma RemovedOk(cfg: Config, queries: seq<Slot>, m: nat, i: nat)
    requires PoolOk(cfg, queries, m) && i < |queries|
    ensures PoolOk(cfg, Removed(queries, i), if i < m then m - 1 else m)
  {
    hide SlotOk, Active;
    var r := Removed(queries, i);
    assert forall j :: 0 <= j < |r| ==> r[j] == queries[if j < i then j else j + 1];
  }

  lemma UpdatedOk(cfg: Config, queries: seq<Slot>, m: nat, i: nat, q: Lookup.State)
    requires PoolOk(cfg, queries, m) && i < |queries| && i <= m && (i == m ==> m < cfg.concurrency)
    requires LookupProofs.Inv(queries[i].cfg, q) && !q.finished && q.inFlight > 0
    ensures PoolOk(cfg, queries[i := queries[i].(q := q)], if i == m then m + 1 else m)
  {
    hide LookupProofs.Inv;
  }

  /** next differs from queries only in the state of the query at i, which waits in time. */
  ghost predicate WaitsAt(queries: seq<Slot>, next: seq<Slot>, i: nat, now: Instant) {
    && i < |next| == |queries| && Sleeps(next[i]) && now <= next[i].q.deadline && next[i].id == queries[i].id
    && forall j :: 0 <= j < |queries| && j != i ==> next[j] == queries[j]
  }

  lemma QueryFacts(cfg: Config, queries: seq<Slot>, m: nat, i: nat, now: Instant, ev: Lookup.Event)
    requires PoolOk(cfg, queries, m) && i < |queries| && now > 0 && Lookup.ValidEvent(queries[i].cfg, ev)
    ensures var s := queries[i];
      && LookupProofs.Inv(s.cfg, s.q)
      && var (q, out) := Lookup.Advance(s.cfg, s.q, now, ev);
        && LookupProofs.Inv(s.cfg, q)
        && (!out.Finished? ==> q.inFlight > 0 && !q.finished)
        && (ev.Cancel? ==> out.Finished?)
        && (ev.Poll? && i >= m ==> !out.Waits())
        && (out.Waits() ==> Sleeps(s.(q := q)) && out.deadline == q.deadline)
        && (!out.Finished? && !out.Waits() ==> out.Dispatches())
  {
    var s := queries[i];
    assert SlotOk(s) && (Active(s) <==> i < m);
    assert i >= m ==> s.q.inFlight == 0;
    hide PoolOk, LookupProofs.GoodNodes, Lookup.Advance;
    StillWaits(s.cfg, s.q, now, ev);
    LookupProofs.AdvanceKeepsInv(s.cfg, s.q, now, ev, 0);
    hide LookupProofs.Inv, Sleeps;
    if Lookup.Advance(s.cfg, s.q, now, ev).1.Waits() {
      WaitSleeps(s, now, ev);
      ReportedTimes(s.cfg, s.q, now, ev);
    }
  }

  /** Advancing the query at i, one of the first m or the one after them. */
  lemma AdvanceAtOk(cfg: Config, queries: seq<Slot>, m: nat, i: nat, now: Instant, ev: Lookup.Event) returns (m': nat)
    requires PoolOk(cfg, queries, m) && i < |queries| && now > 0 && Lookup.ValidEvent(queries[i].cfg, ev)
    requires i < m || ev.Cancel? || (i == m && m < cfg.concurrency && ev.Poll?)
    ensures LookupProofs.Inv(queries[i].cfg, queries[i].q)
    ensures var (next, out) := AdvanceAt(queries, i, now, ev);
      && PoolOk(cfg, next, m')
      && (ev.Cancel? ==> out.Some?)
      && (out.Some? ==> !out.value.Waits() && !out.value.Idle?)
      && (out.None? ==> i < m && m' == m && WaitsAt(queries, next, i, now))
  {
    hide *;
    QueryFacts(cfg, queries, m, i, now, ev);
    AdvanceAtIs(queries, i, now, ev);
    PollApplies(queries[i].cfg, queries[i].q);
    var (q, out) := Lookup.Advance(queries[i].cfg, queries[i].q, now, ev);
    m' := if i < m then m - 1 else m;
    if AdvanceAt(queries, i, now, ev).0 == Removed(queries, i) && AdvanceAt(queries, i, now, ev).1.Some? {
      RemovedOk(cfg, queries, m, i);
    } else {
      BelowBound(cfg, queries, m);
      UpdatedOk(cfg, queries, m, i, q);
      m' := if i == m then m + 1 else m;
      StaysWaiting(queries, i, q, now);
    }
  }

  lemma BelowBound(cfg: Config, queries: seq<Slot>, m: nat)
    requires PoolOk(cfg, queries, m)
    ensures m <= |queries|
  {
  }

  lemma StaysWaiting(queries: seq<Slot>, i: nat, q: Lookup.State, now: Instant)
    requires i < |queries|
    ensures var next := queries[i := queries[i].(q := q)];
      Sleeps(next[i]) && now <= q.deadline ==> WaitsAt(queries, next, i, now)
  {
    hide Sleeps;
  }

  /** What an advanced query's report does to the pool. */
  lemma AdvanceAtIs(queries: seq<Slot>, i: nat, now: Instant, ev: Lookup.Event)
    requires i < |queries| && LookupProofs.Inv(queries[i].cfg, queries[i].q) && Lookup.ValidEvent(queries[i].cfg, ev)
    ensures var s := queries[i];
      var (q, out) := Lookup.Advance(s.cfg, s.q, now, ev);
      var (next, r) := AdvanceAt(queries, i, now, ev);
      && (out.Finished? ==> next == Removed(queries, i) && r.Some?)
      && (r.None? ==> out.Waits() && now <= out.deadline)
      && (r.Some? ==> !r.value.Waits() && !r.value.Idle?)
      && (!(next == Removed(queries, i) && r.Some?) ==> !out.Finished? && next == queries[i := s.(q := q)] && (out.Waits() ==> r.None?))
      && (out.Dispatches() ==> !out.Waits())
  {
    PollApplies(queries[i].cfg, queries[i].q);
    hide Lookup.Advance, LookupProofs.Inv, Lookup.ValidEvent;
    var out := Lookup.Advance(queries[i].cfg, queries[i].q, now, ev).1;
    assert out.AskCloser? || out.SendMessage? || out.Finished? || out.WaitingAtCapacity? || out.WaitingWithCapacity?;
  }

  // ---------- A poll of the queries in order ----------

  /** The number of queries a poll has counted on reaching index i: those before i, and the one left out
      even when it is still to come. */
  function CountedAt(queries: seq<Slot>, skip: ActivityId, i: nat): nat {
    i + (if i <= Position(queries, skip) < |queries| then 1 else 0)
  }

  /** The queries already counted wait, in time. */
  ghost predicate Visited(queries: seq<Slot>, skip: ActivityId, i: nat, now: Instant) {
    forall j :: 0 <= j < |queries| && (j < i || j == Position(queries, skip)) ==> Sleeps(queries[j]) && now <= queries[j].q.deadline
  }

  /** No query that has requests out is past its deadline. */
  ghost predicate Timely(queries: seq<Slot>, m: nat, now: Instant) {
    m <= |queries| && forall j :: 0 <= j < m ==> 0 < now <= queries[j].q.deadline
  }

  /** What a report that the pool waits says: every query with requests out waits, and either there are as
      many of them as allowed, or every query is one of them. */
  ghost predicate Rests(cfg: Config, queries: seq<Slot>, m: nat, out: Outcome) {
    && PoolOk(cfg, queries, m) && m > 0
    && out.Waits() && out.nextDue == NextDue(queries)
    && (forall j :: 0 <= j < m ==> Sleeps(queries[j]))
    && (if out.WaitingAtCapacity? then m == cfg.concurrency else m == |queries| < cfg.concurrency)
  }

  lemma {:induction false} SamePosition(a: seq<Slot>, b: seq<Slot>, id: ActivityId)
    requires |a| == |b| && forall j :: 0 <= j < |a| ==> a[j].id == b[j].id
    ensures Position(a, id) == Position(b, id)
  {
    if |a| > 0 && a[0].id != id {
      SamePosition(a[1..], b[1..], id);
    }
  }

  /** Polling keeps the bound, never finds a pool with queries idle, and waits only when all that could be
      done has been. */
  lemma {:induction false} PollFromOk(cfg: Config, queries: seq<Slot>, i: nat, skip: ActivityId, now: Instant, m: nat) returns (m': nat)
    requires PoolOk(cfg, queries, m) && Advanceable(queries) && now > 0 && i <= m && i <= |queries| && |queries| > 0
    requires Position(queries, skip) < |queries| ==> Position(queries, skip) < m
    requires CountedAt(queries, skip, i) < cfg.concurrency && Visited(queries, skip, i, now)
    ensures var (next, out) := PollFrom(cfg, queries, i, skip, CountedAt(queries, skip, i), now);
      PoolOk(cfg, next, m') && !out.Idle? && (out.Waits() ==> Rests(cfg, next, m', out) && Timely(next, m', now))
    decreases |queries| - i
  {
    m' := m;
    hide PoolOk, Sleeps, AdvanceAt, Rests, Timely, Visited, CountedAt, NextDue, Advanceable, Position, WaitsAt;
    if i == |queries| {
      AllWait(cfg, queries, m, skip, now);
    } else if queries[i].id == skip {
      SkipStep(cfg, queries, m, skip, i, now);
      m' := PollFromOk(cfg, queries, i + 1, skip, now, m);
    } else {
      CountedBelow(cfg, queries, m, skip, i);
      m' := AdvanceAtOk(cfg, queries, m, i, now, Lookup.Poll);
      var (next, out) := AdvanceAt(queries, i, now, Lookup.Poll);
      if out.None? {
        OneMoreWaits(cfg, queries, next, m, skip, i, now);
        OkAdvanceable(cfg, next, m);
        if CountedAt(queries, skip, i) + 1 < cfg.concurrency {
          m' := PollFromOk(cfg, next, i + 1, skip, now, m);
        }
      }
    }
  }

  lemma AllWait(cfg: Config, queries: seq<Slot>, m: nat, skip: ActivityId, now: Instant)
    requires now > 0 && PoolOk(cfg, queries, m) && |queries| > 0 && |queries| <= m
    requires CountedAt(queries, skip, |queries|) < cfg.concurrency && Visited(queries, skip, |queries|, now)
    ensures CountedAt(queries, skip, |queries|) > 0
    ensures Rests(cfg, queries, m, WaitingWithCapacity(NextDue(queries))) && Timely(queries, m, now)
  {
    hide SlotOk, Active, Sleeps;
  }

  lemma SkipStep(cfg: Config, queries: seq<Slot>, m: nat, skip: ActivityId, i: nat, now: Instant)
    requires PoolOk(cfg, queries, m) && i < |queries| && queries[i].id == skip && Position(queries, skip) < m
    requires Visited(queries, skip, i, now)
    ensures Position(queries, skip) == i < m && CountedAt(queries, skip, i + 1) == CountedAt(queries, skip, i)
    ensures Visited(queries, skip, i + 1, now)
  {
    hide SlotOk, Active, Sleeps;
  }

  lemma CountedBelow(cfg: Config, queries: seq<Slot>, m: nat, skip: ActivityId, i: nat)
    requires PoolOk(cfg, queries, m) && i < |queries| && i <= m
    requires Position(queries, skip) < |queries| ==> Position(queries, skip) < m
    requires CountedAt(queries, skip, i) < cfg.concurrency
    ensures i == m ==> m < cfg.concurrency
  {
  }

  /** One more query waits: either they are all accounted for, or the poll goes on. */
  lemma OneMoreWaits(cfg: Config, queries: seq<Slot>, next: seq<Slot>, m: nat, skip: ActivityId, i: nat, now: Instant)
    requires now > 0 && PoolOk(cfg, next, m) && i < m && WaitsAt(queries, next, i, now) && queries[i].id != skip
    requires Position(queries, skip) < |queries| ==> Position(queries, skip) < m
    requires CountedAt(queries, skip, i) < cfg.concurrency && Visited(queries, skip, i, now)
    ensures Position(next, skip) == Position(queries, skip) && |next| == |queries|
    ensures CountedAt(next, skip, i + 1) == CountedAt(queries, skip, i) + 1
    ensures Visited(next, skip, i + 1, now)
    ensures CountedAt(queries, skip, i) + 1 >= cfg.concurrency ==>
      Rests(cfg, next, m, WaitingAtCapacity(NextDue(next))) && Timely(next, m, now)
  {
    hide PoolOk, Sleeps;
    SamePosition(queries, next, skip);
    assert CountedAt(next, skip, i + 1) == CountedAt(queries, skip, i) + 1;
    assert Visited(next, skip, i + 1, now);
    hide Position, WaitsAt;
    if CountedAt(next, skip, i + 1) >= cfg.concurrency {
      AtCapacity(cfg, next, m, skip, i + 1, now);
    }
  }

  lemma AtCapacity(cfg: Config, queries: seq<Slot>, m: nat, skip: ActivityId, i: nat, now: Instant)
    requires now > 0 && PoolOk(cfg, queries, m) && 0 < i <= m && Visited(queries, skip, i, now)
    requires Position(queries, skip) < |queries| ==> Position(queries, skip) < m
    requires CountedAt(queries, skip, i) >= cfg.concurrency
    ensures Rests(cfg, queries, m, WaitingAtCapacity(NextDue(queries))) && Timely(queries, m, now)
  {
    assert m <= cfg.concurrency;
    hide PoolOk, Sleeps;
  }

  /** An advance of the pool keeps the bound: with room for two queries and more, replies only to queries
      that have requests out and no empty id, the queries that have requests out are always the first few
      of the pool, no more than it allows. The pool is idle only when it is empty. */
  lemma AdvanceOk(cfg: Config, queries: seq<Slot>, m: nat, now: Instant, ev: Event) returns (m': nat)
    requires PoolOk(cfg, queries, m) && now > 0 && cfg.concurrency >= 2 && ExpectedEvent(cfg, queries, ev)
    ensures Advanceable(queries)
    ensures var (next, out) := Advance(cfg, queries, now, ev);
      && PoolOk(cfg, next, m')
      && (out.Idle? ==> next == [])
      && (out.Waits() ==> Rests(cfg, next, m', out) && Timely(next, m', now))
  {
    OkAdvanceable(cfg, queries, m);
    hide PoolOk, Sleeps, AdvanceAt, Rests, Timely, Visited, NextDue;
    match ev {
      case Poll => m' := PollAllOk(cfg, queries, now, m);
      case AddQuery(_, _, _, _, _) =>
        AddedOk(cfg, queries, m, ev);
        AddedKeeps(cfg, queries, ev);
        m' := PollAllOk(cfg, Added(cfg, queries, ev), now, m);
      case _ =>
        var i := Position(queries, ev.id);
        if i == |queries| {
          m' := PollAllOk(cfg, queries, now, m);
        } else {
          m' := EventOk(cfg, queries, m, i, now, ev);
        }
    }
  }

  /** A reply is for a query that has requests out, or for one the pool no longer holds, and a new query has
      an id. Any node may reply: one that was asked, in time or late, once or again, or one that was not. */
  ghost predicate ExpectedEvent(cfg: Config, queries: seq<Slot>, ev: Event) {
    && ValidEvent(cfg, queries, ev)
    && (ev.AddQuery? ==> ev.id != "")
    && (ev.NodeResponse? || ev.NodeFailure? ==>
          var i := Position(queries, ev.id);
          i < |queries| ==> Active(queries[i]))
  }

  lemma PollAllOk(cfg: Config, queries: seq<Slot>, now: Instant, m: nat) returns (m': nat)
    requires PoolOk(cfg, queries, m) && Advanceable(queries) && now > 0 && cfg.concurrency >= 2
    ensures var (next, out) := PollAll(cfg, queries, "", 0, now);
      PoolOk(cfg, next, m') && (out.Idle? ==> next == []) && (out.Waits() ==> Rests(cfg, next, m', out) && Timely(next, m', now))
  {
    m' := m;
    if |queries| > 0 {
      NoEmptyId(cfg, queries, m, now);
      m' := PollFromOk(cfg, queries, 0, "", now, m);
    }
    hide PoolOk, Rests, Timely, PollFrom, Advanceable;
  }

  lemma NoEmptyId(cfg: Config, queries: seq<Slot>, m: nat, now: Instant)
    requires PoolOk(cfg, queries, m)
    ensures Position(queries, "") == |queries| && CountedAt(queries, "", 0) == 0 && Visited(queries, "", 0, now)
  {
    assert forall i :: 0 <= i < |queries| ==> SlotOk(queries[i]);
    hide PoolOk, LookupProofs.Inv;
  }

  lemma AddedOk(cfg: Config, queries: seq<Slot>, m: nat, ev: Event)
    requires PoolOk(cfg, queries, m) && ev.AddQuery? && ExpectedEvent(cfg, queries, ev)
    ensures PoolOk(cfg, Added(cfg, queries, ev), m)
  {
    StartOk(cfg, ev.target, ev.findCloser, ev.numResults, ev.seeds);
    hide LookupProofs.Inv;
  }

  /** The query an event is for goes first. */
  lemma EventOk(cfg: Config, queries: seq<Slot>, m: nat, i: nat, now: Instant, ev: Event) returns (m': nat)
    requires PoolOk(cfg, queries, m) && Advanceable(queries) && now > 0 && cfg.concurrency >= 2 && ExpectedEvent(cfg, queries, ev)
    requires (ev.StopQuery? || ev.NodeResponse? || ev.NodeFailure?) && i == Position(queries, ev.id) < |queries|
    ensures var (next, out) := Advance(cfg, queries, now, ev);
      PoolOk(cfg, next, m') && (out.Idle? ==> next == []) && (out.Waits() ==> Rests(cfg, next, m', out) && Timely(next, m', now))
  {
    var qev := QueryEvent(ev);
    EventFits(cfg, queries, m, i, ev);
    hide *;
    EventAdvances(cfg, queries, i, now, ev);
    m' := AdvanceAtOk(cfg, queries, m, i, now, qev);
    var (next, out) := AdvanceAt(queries, i, now, qev);
    if out.None? {
      EventWaits(cfg, queries, next, m, i, ev.id, now);
      m' := PollFromOk(cfg, next, 0, ev.id, now, m);
    }
  }

  lemma EventFits(cfg: Config, queries: seq<Slot>, m: nat, i: nat, ev: Event)
    requires PoolOk(cfg, queries, m) && ExpectedEvent(cfg, queries, ev)
    requires (ev.StopQuery? || ev.NodeResponse? || ev.NodeFailure?) && i == Position(queries, ev.id) < |queries|
    ensures cfg.Valid() && ValidEvent(cfg, queries, ev) && Lookup.ValidEvent(queries[i].cfg, QueryEvent(ev))
    ensures i < m || QueryEvent(ev).Cancel?
  {
    hide Active, Position, SlotOk;
  }

  lemma EventAdvances(cfg: Config, queries: seq<Slot>, i: nat, now: Instant, ev: Event)
    requires cfg.Valid() && Advanceable(queries) && now > 0 && ValidEvent(cfg, queries, ev)
    requires (ev.StopQuery? || ev.NodeResponse? || ev.NodeFailure?) && i == Position(queries, ev.id) < |queries|
    requires Lookup.ValidEvent(queries[i].cfg, QueryEvent(ev))
    ensures LookupProofs.Inv(queries[i].cfg, queries[i].q)
    ensures var (next, out) := AdvanceAt(queries, i, now, QueryEvent(ev));
      && Advanceable(next)
      && Advance(cfg, queries, now, ev) == if out.Some? then (next, out.value) else PollAll(cfg, next, ev.id, 1, now)
  {
    hide Position, AdvanceAt, PollAll, Lookup.ValidEvent, LookupProofs.Inv;
    AdvanceAtKeeps(queries, i, now, QueryEvent(ev));
  }

  /** A query that goes on waiting after its event counts as one, and the poll goes on from there. */
  lemma EventWaits(cfg: Config, queries: seq<Slot>, next: seq<Slot>, m: nat, i: nat, id: ActivityId, now: Instant)
    requires WaitsAt(queries, next, i, now) && i == Position(queries, id) < |queries| && i < m && Advanceable(next) && now > 0
    ensures |next| > 0 && Position(next, id) < m && CountedAt(next, id, 0) == 1 && Visited(next, id, 0, now)
    ensures PollAll(cfg, next, id, 1, now) == PollFrom(cfg, next, 0, id, 1, now)
  {
    SamePosition(queries, next, id);
    hide Position, PollFrom, Sleeps, Advanceable;
  }

  // ---------- Sleeping ----------

  lemma {:induction false} NextDueIsLeast(queries: seq<Slot>, i: nat)
    requires i < |queries|
    ensures queries[i].q.nextDue > 0 ==> 0 < NextDue(queries) <= queries[i].q.nextDue
    ensures queries[i].q.deadline > 0 ==> 0 < NextDue(queries) <= queries[i].q.deadline
  {
    if i < |queries| - 1 {
      NextDueIsLeast(queries[..|queries| - 1], i);
    }
  }

  /** The time a pool gives is the due time or the deadline of one of its queries, unless none has either. */
  lemma {:induction false} NextDueAttained(queries: seq<Slot>)
    ensures NextDue(queries) != 0 ==> exists s :: s in queries && (s.q.nextDue == NextDue(queries) || s.q.deadline == NextDue(queries))
    ensures NextDue(queries) == 0 <==> forall s :: s in queries ==> s.q.nextDue == 0 && s.q.deadline == 0
  {
    if |queries| > 0 {
      var init, last := queries[..|queries| - 1], queries[|queries| - 1];
      NextDueAttained(init);
      assert forall s :: s in queries <==> s in init || s == last;
      assert last in queries;
    }
  }

  lemma QuerySleeps(s: Slot, t: Instant) returns (o: Lookup.Outcome)
    requires Sleeps(s) && t <= s.q.nextDue
    ensures LookupProofs.Inv(s.cfg, s.q) && Lookup.ValidEvent(s.cfg, Lookup.Poll)
    ensures o.Waits() && o.deadline == s.q.deadline && s.q.nextDue > 0 && s.q.deadline > 0
    ensures Lookup.Advance(s.cfg, s.q, t, Lookup.Poll) == (s.q, o)
  {
    o :| SleepsWith(s, o);
    hide LookupProofs.Inv, Lookup.Advance;
  }

  /** A sleeping query polled before anything is due stays as it is. */
  lemma SleepsAt(queries: seq<Slot>, i: nat, t: Instant)
    requires i < |queries| && Sleeps(queries[i]) && t <= queries[i].q.nextDue && t <= queries[i].q.deadline
    ensures LookupProofs.Inv(queries[i].cfg, queries[i].q) && Lookup.ValidEvent(queries[i].cfg, Lookup.Poll)
    ensures AdvanceAt(queries, i, t, Lookup.Poll) == (queries, None)
  {
    hide Lookup.Advance, LookupProofs.Inv, Lookup.ValidEvent, Sleeps;
    var s := queries[i];
    var o := QuerySleeps(s, t);
    assert queries[i := s.(q := s.q)] == queries;
  }

  /** While the pool rests, a poll that has come to index i finds a query that sleeps, or has seen them all. */
  lemma RestsAt(cfg: Config, queries: seq<Slot>, m: nat, out: Outcome, i: nat, t: Instant)
    requires Rests(cfg, queries, m, out) && t <= out.nextDue && i <= m && i < cfg.concurrency
    ensures i <= |queries| && m <= |queries| && (i == |queries| ==> out == WaitingWithCapacity(NextDue(queries)) && i > 0)
    ensures i < |queries| ==> i < m && queries[i].id != "" && Sleeps(queries[i])
    ensures i < |queries| ==> t <= queries[i].q.nextDue && t <= queries[i].q.deadline
    ensures i < |queries| && i + 1 >= cfg.concurrency ==> out == WaitingAtCapacity(NextDue(queries))
  {
    if i < |queries| {
      assert SlotOk(queries[i]);
      NextDueIsLeast(queries, i);
    }
    hide LookupProofs.Inv, NextDue, Active, DistinctIds;
  }

  lemma {:induction false} PollRests(cfg: Config, queries: seq<Slot>, m: nat, out: Outcome, i: nat, t: Instant)
    requires Rests(cfg, queries, m, out) && Advanceable(queries) && 0 < t <= out.nextDue
    requires i <= m && i < cfg.concurrency && i <= |queries|
    ensures PollFrom(cfg, queries, i, "", i, t) == (queries, out)
    decreases |queries| - i
  {
    hide Rests, Advanceable, AdvanceAt, NextDue, Sleeps;
    RestsAt(cfg, queries, m, out, i, t);
    if i < |queries| {
      SleepsAt(queries, i, t);
      if i + 1 < cfg.concurrency {
        PollRests(cfg, queries, m, out, i + 1, t);
      }
    }
  }

  /** Sleeping until NextDue is safe for the pool: after a report that it waits, a poll at any time up to
      NextDue changes no query and reports the same. NextDue is no later than any query's own due time or
      deadline. */
  lemma PoolSleeps(cfg: Config, queries: seq<Slot>, m: nat, now: Instant, ev: Event, t: Instant)
    requires PoolOk(cfg, queries, m) && now > 0 && cfg.concurrency >= 2 && ExpectedEvent(cfg, queries, ev)
    requires Advanceable(queries) && Advance(cfg, queries, now, ev).1.Waits()
    requires 0 < t <= Advance(cfg, queries, now, ev).1.nextDue
    ensures var (next, out) := Advance(cfg, queries, now, ev);
      && Advanceable(next)
      && Advance(cfg, next, t, Poll) == (next, out)
      && (forall i :: 0 <= i < |next| ==>
            && (next[i].q.nextDue > 0 ==> out.nextDue <= next[i].q.nextDue)
            && (next[i].q.deadline > 0 ==> out.nextDue <= next[i].q.deadline))
  {
    var m' := AdvanceOk(cfg, queries, m, now, ev);
    var (next, out) := Advance(cfg, queries, now, ev);
    hide Advance;
    OkAdvanceable(cfg, next, m');
    PollRests(cfg, next, m', out, 0, t);
    forall i | 0 <= i < |next|
      ensures next[i].q.nextDue > 0 ==> out.nextDue <= next[i].q.nextDue
      ensures next[i].q.deadline > 0 ==> out.nextDue <= next[i].q.deadline
    {
      NextDueIsLeast(next, i);
    }
    PollIs(cfg, next, t);
    hide *;
  }

  lemma PollIs(cfg: Config, queries: seq<Slot>, t: Instant)
    requires cfg.Valid() && Advanceable(queries) && |queries| > 0 && t > 0
    ensures ValidEvent(cfg, queries, Poll) && Advance(cfg, queries, t, Poll) == PollFrom(cfg, queries, 0, "", 0, t)
  {
    hide Advanceable, PollFrom;
  }

  // ---------- Runs ----------

  ghost predicate PoolStep(cfg: Config, a: seq<Slot>, b: seq<Slot>) {
    && cfg.Valid() && Advanceable(a)
    && exists now, ev :: now > 0 && ExpectedEvent(cfg, a, ev) && b == Advance(cfg, a, now, ev).0
  }

  ghost predicate IsRun(cfg: Config, run: seq<seq<Slot>>) {
    |run| > 0 && run[0] == [] && forall i :: 0 < i < |run| ==> PoolStep(cfg, run[i - 1], run[i])
  }

  /** In every state of every run of a pool with room for two queries or more, the queries that have
      requests out are its first m, for some m it allows. */
  lemma {:induction false} AlwaysBounded(cfg: Config, run: seq<seq<Slot>>, i: nat) returns (m: nat)
    requires cfg.Valid() && cfg.concurrency >= 2 && IsRun(cfg, run) && i < |run|
    ensures PoolOk(cfg, run[i], m)
  {
    if i == 0 {
      m := 0;
    } else {
      var before := AlwaysBounded(cfg, run, i - 1);
      assert PoolStep(cfg, run[i - 1], run[i]);
      hide PoolOk, Advance, ExpectedEvent, IsRun;
      var now, ev :| now > 0 && ExpectedEvent(cfg, run[i - 1], ev) && run[i] == Advance(cfg, run[i - 1], now, ev).0;
      m := AdvanceOk(cfg, run[i - 1], before, now, ev);
    }
  }
}
