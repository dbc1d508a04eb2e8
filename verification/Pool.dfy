/** The pool as the program runs it: a list of queries and an index of them by id, proved against the
    specification in `PoolSpec`. */
module Pool {
  import opened Clock
  import opened Options
  import Lookup
  import LookupProofs
  import Query
  import opened PoolSpec

  datatype Member = Member(id: ActivityId, qry: Query.Query)

  ghost function ObjectsOf(members: seq<Member>): set<object> {
    (set m | m in members :: m.qry as object) + (set m | m in members :: m.qry.iter as object)
  }

  /** The state of a list of queries as values. */
  ghost function SlotsOf(members: seq<Member>): (s: seq<Slot>)
    reads ObjectsOf(members)
    ensures |s| == |members|
    ensures forall i :: 0 <= i < |s| ==> s[i] == Slot(members[i].id, members[i].qry.cfg, members[i].qry.Contents())
  {
    seq(|members|, i requires 0 <= i < |members| reads ObjectsOf(members) =>
      Slot(members[i].id, members[i].qry.cfg, members[i].qry.Contents()))
  }

  /** No two queries share an id or an object. */
  ghost predicate Distinct(members: seq<Member>) {
    forall i, j :: 0 <= i < j < |members| ==>
      members[i].id != members[j].id && members[i].qry != members[j].qry && members[i].qry.iter != members[j].qry.iter
  }

  /** A list and an index hold the same queries under the same ids. */
  ghost predicate Agree(members: seq<Member>, index: map<ActivityId, Query.Query>) {
    && (forall i :: 0 <= i < |members| ==> members[i].id in index && index[members[i].id] == members[i].qry)
    && (forall id :: id in index ==> exists i :: 0 <= i < |members| && members[i].id == id)
  }

  class Pool {
    const cfg: Config
    var queries: seq<Member>
    var queryIndex: map<ActivityId, Query.Query>
    var queriesInFlight: nat

    ghost function Objects(): set<object>
      reads `queries
    {
      ObjectsOf(queries)
    }

    ghost predicate Valid()
      reads `queries, `queryIndex, Objects()
    {
      && cfg.Valid() && Distinct(queries) && Agree(queries, queryIndex)
      && forall i :: 0 <= i < |queries| ==> queries[i].qry.Valid()
    }

    /** The pool's queries as values. */
    ghost function Contents(): (s: seq<Slot>)
      reads `queries, Objects()
      ensures |s| == |queries|
    {
      SlotsOf(queries)
    }

    constructor (cfg: Config)
      requires cfg.Valid()
      ensures Valid() && this.cfg == cfg && Contents() == [] && Objects() == {}
    {
      this.cfg := cfg;
      queries := [];
      queryIndex := map[];
      queriesInFlight := 0;
    }

    /** Advances the query at index i and leaves the rest as they are. */
    method Step(m: Member, ghost i: nat, now: Instant, ev: Lookup.Event) returns (out: Lookup.Outcome)
      requires Valid() && i < |queries| && queries[i] == m
      requires LookupProofs.Inv(Contents()[i].cfg, Contents()[i].q) && Lookup.ValidEvent(Contents()[i].cfg, ev)
      modifies m.qry, m.qry.iter
      ensures Valid()
      ensures var s := old(Contents());
        var (q, o) := Lookup.Advance(s[i].cfg, s[i].q, now, ev);
        Contents() == s[i := s[i].(q := q)] && out == o
    {
      ghost var s := Contents();
      assert queries[i] in queries;
      assert Lookup.Ascending(s[i].cfg.target, s[i].q.nodes);
      hide Lookup.Advance, LookupProofs.Inv, Query.Query.Contents;
      out := m.qry.Advance(now, ev);
      forall j | 0 <= j < |queries| && j != i
        ensures queries[j].qry.Valid() && Contents()[j] == s[j]
      {
        assert queries[j] in queries;
      }
    }

    /** Takes the query at index i out of the list and the index. */
    method RemoveQuery(id: ActivityId, ghost i: nat)
      requires Valid() && i < |queries| && queries[i].id == id
      modifies `queries, `queryIndex
      ensures Valid() && Objects() <= old(Objects())
      ensures Contents() == Removed(old(Contents()), i)
    {
      ghost var was := queries;
      hide SlotsOf, Query.Query.Valid, Query.Query.Contents, Distinct, Agree, ObjectsOf;
      var k := 0;
      while queries[k].id != id
        invariant k <= i && queries == was && queryIndex == old(queryIndex)
        invariant forall j :: 0 <= j < k ==> queries[j].id != id
        decreases i - k
      {
        k := k + 1;
      }
      OneOfId(queries, k, i);
      Dropped(queries, queryIndex, i);
      RemovedSlots(queries, i);
      queries := queries[..k] + queries[k + 1..];
      queryIndex := queryIndex - {id};
    }

    /** Advances the query at index i and acts on its report; a query that waits is counted. */
    method AdvanceQuery(m: Member, ghost i: nat, now: Instant, ev: Lookup.Event) returns (out: Option<Outcome>)
      requires Valid() && i < |queries| && queries[i] == m
      requires LookupProofs.Inv(Contents()[i].cfg, Contents()[i].q) && Lookup.ValidEvent(Contents()[i].cfg, ev)
      modifies this, Objects()
      ensures Valid() && Objects() <= old(Objects())
      ensures (Contents(), out) == AdvanceAt(old(Contents()), i, now, ev)
      ensures out.None? ==> queriesInFlight == old(queriesInFlight) + 1
    {
      hide *;
      SlotAt(i);
      var id, target := m.id, m.qry.cfg.target;
      ReportActedOn(Contents(), i, now, ev);
      var st := Step(m, i, now, ev);
      match st {
        case AskCloser(node, _) =>
          Count();
          out := Some(FindCloser(id, target, node));
        case SendMessage(node, _) =>
          Count();
          out := Some(SendMessage(id, node));
        case Finished(results, _) =>
          RemoveQuery(id, i);
          out := Some(QueryFinished(id, results));
        case WaitingAtCapacity(_, deadline, _) => out := CountOrGiveUp(id, i, now, deadline);
        case WaitingWithCapacity(_, deadline, _) => out := CountOrGiveUp(id, i, now, deadline);
      }
    }

    lemma SlotAt(i: nat)
      requires Valid() && i < |queries|
      ensures Contents()[i] == Slot(queries[i].id, queries[i].qry.cfg, queries[i].qry.Contents())
      ensures {queries[i].qry, queries[i].qry.iter} <= Objects()
    {
      assert queries[i] in queries;
    }

    method CountOrGiveUp(id: ActivityId, ghost i: nat, now: Instant, deadline: Instant) returns (out: Option<Outcome>)
      requires Valid() && i < |queries| && queries[i].id == id
      modifies this
      ensures Valid() && Objects() <= old(Objects())
      ensures now > deadline ==>
        Contents() == Removed(old(Contents()), i) && out == Some(QueryTimeout(old(Contents())[i].id))
      ensures now <= deadline ==> Contents() == old(Contents()) && out == None && queriesInFlight == old(queriesInFlight) + 1
    {
      if now > deadline {
        assert Contents()[i].id == id;
        RemoveQuery(id, i);
        return Some(QueryTimeout(id));
      }
      Count();
      out := None;
    }

    method Count()
      requires Valid()
      modifies `queriesInFlight
      ensures Valid() && Contents() == old(Contents()) && Objects() == old(Objects())
      ensures queriesInFlight == old(queriesInFlight) + 1
    {
      hide Distinct, Agree, SlotsOf;
      queriesInFlight := queriesInFlight + 1;
    }

    /** The earliest time at which a query is due or runs out of time. */
    method NextDue() returns (earliest: Instant)
      requires Valid()
      ensures earliest == PoolSpec.NextDue(Contents())
      ensures Valid() && Contents() == old(Contents()) && Objects() == old(Objects())
    {
      ghost var s := Contents();
      hide Valid, Distinct, Agree, Query.Query.Valid;
      earliest := 0;
      var i := 0;
      while i < |queries|
        invariant i <= |queries| && earliest == PoolSpec.NextDue(s[..i])
      {
        assert queries[i] in queries;
        assert s[..i + 1][..i] == s[..i];
        var q := queries[i].qry;
        if q.nextDue != 0 && (earliest == 0 || q.nextDue < earliest) {
          earliest := q.nextDue;
        }
        if q.deadline != 0 && (earliest == 0 || q.deadline < earliest) {
          earliest := q.deadline;
        }
        i := i + 1;
      }
      assert s[..|s|] == s;
    }

    /** Where the query of an id is in the list, if the index has it. */
    lemma Indexed(id: ActivityId)
      requires Valid()
      ensures cfg.Valid()
      ensures var i := Position(Contents(), id);
        && (i < |queries| <==> id in queryIndex)
        && (i < |queries| ==> queries[i] == Member(id, queryIndex[id]))
    {
      var i := Position(Contents(), id);
      if id in queryIndex {
        var j :| 0 <= j < |queries| && queries[j].id == id;
        assert Contents()[j].id == id;
      }
      if i < |queries| {
        assert Contents()[i].id == queries[i].id;
      }
      hide Position, Distinct, SlotsOf;
    }

    /** Adds a query to the end of the list, unless its id is in use. */
    method Add(ev: Event)
      requires Valid() && ev.AddQuery? && ValidEvent(cfg, Contents(), ev)
      modifies `queries, `queryIndex
      ensures Valid() && fresh(Objects() - old(Objects()))
      ensures Contents() == Added(cfg, old(Contents()), ev)
    {
      hide Distinct, Agree, SlotsOf, Query.Query.Valid, Query.Query.Contents, Position, Added, Lookup.Start, Lookup.Config.Valid;
      Indexed(ev.id);
      AddedIs(cfg, Contents(), ev);
      if ev.id in queryIndex {
        return;
      }
      var qcfg := QueryConfig(cfg, ev.target, ev.findCloser, ev.numResults);
      var qry := new Query.Query(qcfg, ev.seeds);
      Append(Member(ev.id, qry));
    }

    method Append(m: Member)
      requires Valid() && m.id !in queryIndex && m.qry.Valid()
      requires forall o :: o in queries ==> o.qry != m.qry && o.qry.iter != m.qry.iter
      modifies `queries, `queryIndex
      ensures Valid() && Objects() == old(Objects()) + {m.qry, m.qry.iter}
      ensures Contents() == old(Contents()) + [Slot(m.id, m.qry.cfg, m.qry.Contents())]
    {
      hide Query.Query.Valid, Query.Query.Contents, Distinct, Agree;
      Joined(queries, queryIndex, m);
      ghost var s := Contents();
      queries := queries + [m];
      queryIndex := queryIndex[m.id := m.qry];
      assert Contents() == s + [Slot(m.id, m.qry.cfg, m.qry.Contents())];
      assert forall o :: o in queries <==> o in old(queries) || o == m;
    }

    /** Polls the query at index i, unless it is the one left out. */
    method Visit(i: nat, skip: ActivityId, now: Instant) returns (done: bool, out: Outcome)
      requires Valid() && Advanceable(Contents()) && now > 0 && i < |queries|
      modifies this, Objects()
      ensures Valid() && Objects() <= old(Objects())
      ensures done ==> (Contents(), out) == PollFrom(cfg, old(Contents()), i, skip, old(queriesInFlight), now)
      ensures !done ==> |queries| == old(|queries|) && Advanceable(Contents())
      ensures !done ==>
        PollFrom(cfg, Contents(), i + 1, skip, queriesInFlight, now) == PollFrom(cfg, old(Contents()), i, skip, old(queriesInFlight), now)
    {
      hide *;
      SlotAt(i);
      PollStep(cfg, Contents(), i, skip, queriesInFlight, now);
      done, out := false, Idle(0);
      if queries[i].id != skip {
        var r := AdvanceQuery(queries[i], i, now, Lookup.Poll);
        if r.Some? {
          return true, r.value;
        }
        if queriesInFlight >= cfg.concurrency {
          var due := NextDue();
          return true, WaitingAtCapacity(due);
        }
      }
    }

    /** Polls the queries in order, leaving out the one of the given id, and reports the first thing there is to report. */
    method PollAll(skip: ActivityId, now: Instant) returns (out: Outcome)
      requires Valid() && Advanceable(Contents()) && now > 0
      modifies this, Objects()
      ensures Valid() && Objects() <= old(Objects())
      ensures (Contents(), out) == PoolSpec.PollAll(cfg, old(Contents()), skip, old(queriesInFlight), now)
    {
      hide *;
      PollAllIs(cfg, Contents(), skip, queriesInFlight, now);
      if |queries| == 0 {
        return Idle(0);
      }
      out := PollList(skip, now);
    }

    method PollList(skip: ActivityId, now: Instant) returns (out: Outcome)
      requires Valid() && Advanceable(Contents()) && now > 0
      modifies this, Objects()
      ensures Valid() && Objects() <= old(Objects())
      ensures (Contents(), out) == PollFrom(cfg, old(Contents()), 0, skip, old(queriesInFlight), now)
    {
      hide *;
      ghost var s, n := Contents(), queriesInFlight;
      var i, done := 0, false;
      out := Idle(0);
      while i < |queries| && !done
        invariant Valid() && Objects() <= old(Objects())
        invariant !done ==> i <= |queries| == |s| && Advanceable(Contents())
        invariant !done ==> PollFrom(cfg, s, 0, skip, n, now) == PollFrom(cfg, Contents(), i, skip, queriesInFlight, now)
        invariant done ==> PollFrom(cfg, s, 0, skip, n, now) == (Contents(), out)
        decreases !done, |s| - i
      {
        done, out := Visit(i, skip, now);
        i := i + 1;
      }
      if !done {
        PollEnds(cfg, Contents(), skip, queriesInFlight, now);
        var due := NextDue();
        out := if queriesInFlight > 0 then WaitingWithCapacity(due) else Idle(due);
      }
    }

    /** One advance of the pool. */
    method Advance(now: Instant, ev: Event) returns (out: Outcome)
      requires Valid() && Advanceable(Contents()) && ValidEvent(cfg, Contents(), ev) && now > 0
      modifies this, Objects()
      ensures Valid() && fresh(Objects() - old(Objects()))
      ensures (Contents(), out) == PoolSpec.Advance(cfg, old(Contents()), now, ev)
    {
      hide Distinct, Agree, SlotsOf, Query.Query.Valid, Query.Query.Contents, Position, Added, Advanceable, PoolSpec.Advance, PoolSpec.PollAll, ValidEvent;
      Configured();
      ghost var s := Contents();
      AdvanceIs(cfg, s, now, ev);
      Reset();
      if ev.Poll? {
        out := PollAll("", now);
      } else if ev.AddQuery? {
        Add(ev);
        out := PollAll("", now);
      } else {
        Indexed(ev.id);
        if ev.id !in queryIndex {
          out := PollAll("", now);
        } else {
          out := AdvanceFor(Member(ev.id, queryIndex[ev.id]), Position(s, ev.id), now, ev);
        }
      }
    }

    lemma Configured()
      requires Valid()
      ensures cfg.Valid()
    {
    }

    method Reset()
      requires Valid()
      modifies `queriesInFlight
      ensures Valid() && Contents() == old(Contents()) && Objects() == old(Objects()) && queriesInFlight == 0
    {
      hide Distinct, Agree, SlotsOf;
      queriesInFlight := 0;
    }

    /** Advances the query an event is for, and then polls the others. */
    method AdvanceFor(m: Member, ghost i: nat, now: Instant, ev: Event) returns (out: Outcome)
      requires Valid() && Advanceable(Contents()) && ValidEvent(cfg, Contents(), ev) && now > 0 && queriesInFlight == 0
      requires ev.StopQuery? || ev.NodeResponse? || ev.NodeFailure?
      requires i < |queries| && queries[i] == m && i == Position(Contents(), ev.id) && m.id == ev.id && cfg.Valid()
      modifies this, Objects()
      ensures Valid() && Objects() <= old(Objects())
      ensures (Contents(), out) == PoolSpec.Advance(cfg, old(Contents()), now, ev)
    {
      hide *;
      var id := m.id;
      EventStep(cfg, Contents(), i, now, ev);
      var r := AdvanceQuery(m, i, now, QueryEvent(ev));
      if r.Some? {
        return r.value;
      }
      out := PollAll(id, now);
    }
  }

  lemma AddedIs(cfg: Config, queries: seq<Slot>, ev: Event)
    requires cfg.Valid() && ev.AddQuery? && ValidEvent(cfg, queries, ev)
    ensures forall i :: 0 <= i < |ev.seeds| ==> |ev.seeds[i]| == |ev.target|
    ensures var qcfg := QueryConfig(cfg, ev.target, ev.findCloser, ev.numResults);
      && qcfg.Valid() && qcfg.target == ev.target
      && Added(cfg, queries, ev) ==
           if Position(queries, ev.id) < |queries| then queries
           else queries + [Slot(ev.id, qcfg, Lookup.Start(qcfg, ev.seeds))]
  {
    hide Lookup.Start;
  }

  lemma PollStep(cfg: Config, queries: seq<Slot>, i: nat, skip: ActivityId, inFlight: nat, now: Instant)
    requires Advanceable(queries) && i < |queries| && now > 0
    ensures LookupProofs.Inv(queries[i].cfg, queries[i].q) && Lookup.ValidEvent(queries[i].cfg, Lookup.Poll)
    ensures queries[i].id == skip ==>
      PollFrom(cfg, queries, i, skip, inFlight, now) == PollFrom(cfg, queries, i + 1, skip, inFlight, now)
    ensures var (next, out) := AdvanceAt(queries, i, now, Lookup.Poll);
      && Advanceable(next) && (out.None? ==> |next| == |queries|)
      && (queries[i].id != skip ==>
            PollFrom(cfg, queries, i, skip, inFlight, now) ==
            (if out.Some? then (next, out.value)
             else if inFlight + 1 >= cfg.concurrency then (next, WaitingAtCapacity(PoolSpec.NextDue(next)))
             else PollFrom(cfg, next, i + 1, skip, inFlight + 1, now)))
  {
    AdvanceAtKeeps(queries, i, now, Lookup.Poll);
    hide LookupProofs.Inv, AdvanceAt;
  }

  lemma PollEnds(cfg: Config, queries: seq<Slot>, skip: ActivityId, inFlight: nat, now: Instant)
    requires Advanceable(queries) && now > 0
    ensures var due := PoolSpec.NextDue(queries);
      PollFrom(cfg, queries, |queries|, skip, inFlight, now) ==
        (queries, if inFlight > 0 then WaitingWithCapacity(due) else Idle(due))
  {
  }

  lemma PollAllIs(cfg: Config, queries: seq<Slot>, skip: ActivityId, inFlight: nat, now: Instant)
    requires Advanceable(queries) && now > 0
    ensures PoolSpec.PollAll(cfg, queries, skip, inFlight, now) ==
      if |queries| == 0 then (queries, Idle(0)) else PollFrom(cfg, queries, 0, skip, inFlight, now)
  {
    hide PollFrom;
  }

  lemma AdvanceIs(cfg: Config, queries: seq<Slot>, now: Instant, ev: Event)
    requires cfg.Valid() && Advanceable(queries) && ValidEvent(cfg, queries, ev) && now > 0
    ensures ev.Poll? ==> PoolSpec.Advance(cfg, queries, now, ev) == PoolSpec.PollAll(cfg, queries, "", 0, now)
    ensures ev.AddQuery? ==> Advanceable(Added(cfg, queries, ev))
    ensures ev.AddQuery? ==>
      PoolSpec.Advance(cfg, queries, now, ev) == PoolSpec.PollAll(cfg, Added(cfg, queries, ev), "", 0, now)
    ensures !ev.Poll? && !ev.AddQuery? && Position(queries, ev.id) == |queries| ==>
      PoolSpec.Advance(cfg, queries, now, ev) == PoolSpec.PollAll(cfg, queries, "", 0, now)
  {
    if ev.AddQuery? {
      AddedKeeps(cfg, queries, ev);
    }
    hide PoolSpec.PollAll, Added, Advanceable, AdvanceAt;
  }

  lemma EventStep(cfg: Config, queries: seq<Slot>, i: nat, now: Instant, ev: Event)
    requires cfg.Valid() && Advanceable(queries) && ValidEvent(cfg, queries, ev) && now > 0
    requires (ev.StopQuery? || ev.NodeResponse? || ev.NodeFailure?) && i == Position(queries, ev.id) < |queries|
    ensures LookupProofs.Inv(queries[i].cfg, queries[i].q) && Lookup.ValidEvent(queries[i].cfg, QueryEvent(ev))
    ensures var (next, out) := AdvanceAt(queries, i, now, QueryEvent(ev));
      && Advanceable(next)
      && PoolSpec.Advance(cfg, queries, now, ev) ==
           if out.Some? then (next, out.value) else PoolSpec.PollAll(cfg, next, ev.id, 1, now)
  {
    hide LookupProofs.Inv, AdvanceAt, PoolSpec.PollAll;
    AdvanceAtKeeps(queries, i, now, QueryEvent(ev));
  }

  lemma Joined(members: seq<Member>, index: map<ActivityId, Query.Query>, m: Member)
    requires Distinct(members) && Agree(members, index) && m.id !in index
    requires forall o :: o in members ==> o.qry != m.qry && o.qry.iter != m.qry.iter
    ensures Distinct(members + [m]) && Agree(members + [m], index[m.id := m.qry])
  {
    assert forall o :: o in members ==> o.id in index;
    JoinedDistinct(members, m);
    JoinedAgree(members, index, m);
    hide *;
  }

  lemma JoinedDistinct(members: seq<Member>, m: Member)
    requires Distinct(members) && forall o :: o in members ==> o.id != m.id && o.qry != m.qry && o.qry.iter != m.qry.iter
    ensures Distinct(members + [m])
  {
    var all := members + [m];
    assert forall i :: 0 <= i < |all| ==> if i < |members| then all[i] == members[i] && members[i] in members else all[i] == m;
  }

  lemma JoinedAgree(members: seq<Member>, index: map<ActivityId, Query.Query>, m: Member)
    requires Agree(members, index) && m.id !in index
    ensures Agree(members + [m], index[m.id := m.qry])
  {
    var all := members + [m];
    assert all[|members|] == m && forall i :: 0 <= i < |members| ==> all[i] == members[i];
    forall x | x in index.Keys + {m.id}
      ensures exists i :: 0 <= i < |all| && all[i].id == x
    {
      if x != m.id {
        var i :| 0 <= i < |members| && members[i].id == x;
        assert all[i].id == x;
      }
    }
  }

  lemma OneOfId(members: seq<Member>, k: nat, i: nat)
    requires Distinct(members) && k < |members| && i < |members| && members[k].id == members[i].id
    ensures k == i
  {
  }

  lemma RemovedSlots(members: seq<Member>, k: nat)
    requires k < |members| && forall i :: 0 <= i < |members| ==> members[i].qry.Valid()
    ensures var rest := members[..k] + members[k + 1..];
      && SlotsOf(rest) == Removed(SlotsOf(members), k)
      && forall i :: 0 <= i < |rest| ==> rest[i].qry.Valid()
  {
    hide Query.Query.Valid, Query.Query.Contents;
    var rest := members[..k] + members[k + 1..];
    assert forall j :: 0 <= j < |rest| ==> rest[j] == members[if j < k then j else j + 1];
  }

  /** Dropping a query from the list and its id from the index leaves the two in agreement. */
  lemma Dropped(members: seq<Member>, index: map<ActivityId, Query.Query>, k: nat)
    requires k < |members| && Distinct(members) && Agree(members, index)
    ensures var rest := members[..k] + members[k + 1..];
      Distinct(rest) && Agree(rest, index - {members[k].id}) && ObjectsOf(rest) <= ObjectsOf(members)
  {
    DroppedAgree(members, index, k);
    DroppedDistinct(members, k);
    DroppedWithin(members, k);
    hide *;
  }

  lemma DroppedDistinct(members: seq<Member>, k: nat)
    requires k < |members| && Distinct(members)
    ensures Distinct(members[..k] + members[k + 1..])
  {
    var rest := members[..k] + members[k + 1..];
    assert forall j :: 0 <= j < |rest| ==> rest[j] == members[if j < k then j else j + 1];
  }

  lemma DroppedWithin(members: seq<Member>, k: nat)
    requires k < |members|
    ensures ObjectsOf(members[..k] + members[k + 1..]) <= ObjectsOf(members)
  {
    var rest := members[..k] + members[k + 1..];
    forall m | m in rest
      ensures m in members
    {
      var j :| 0 <= j < |rest| && rest[j] == m;
      assert members[if j < k then j else j + 1] == m;
    }
  }

  lemma DroppedAgree(members: seq<Member>, index: map<ActivityId, Query.Query>, k: nat)
    requires k < |members| && Distinct(members) && Agree(members, index)
    ensures Agree(members[..k] + members[k + 1..], index - {members[k].id})
  {
    var rest := members[..k] + members[k + 1..];
    forall j | 0 <= j < |rest|
      ensures rest[j] == members[if j < k then j else j + 1] && rest[j].id != members[k].id
    {
    }
    hide Distinct;
    forall x | x in index - {members[k].id}
      ensures exists j :: 0 <= j < |rest| && rest[j].id == x
    {
      var i :| 0 <= i < |members| && members[i].id == x;
      assert rest[if i < k then i else i - 1].id == x;
    }
  }

  /** What an advanced query's report does to the pool, given the pool with the query's new state. */
  lemma ReportActedOn(queries: seq<Slot>, i: nat, now: Instant, ev: Lookup.Event)
    requires i < |queries| && LookupProofs.Inv(queries[i].cfg, queries[i].q) && Lookup.ValidEvent(queries[i].cfg, ev)
    ensures queries[i].cfg.Valid() && Lookup.Ascending(queries[i].cfg.target, queries[i].q.nodes)
    ensures var s := queries[i];
      var (q, out) := Lookup.Advance(s.cfg, s.q, now, ev);
      var r, updated := AdvanceAt(queries, i, now, ev), queries[i := s.(q := q)];
      && updated[i].id == s.id
      && (out.AskCloser? ==> r == (updated, Some(FindCloser(s.id, s.cfg.target, out.node))))
      && (out.SendMessage? ==> r == (updated, Some(SendMessage(s.id, out.node))))
      && (out.Finished? ==> r == (Removed(updated, i), Some(QueryFinished(s.id, out.results))))
      && ((out.WaitingAtCapacity? || out.WaitingWithCapacity?) && now > out.deadline ==>
            r == (Removed(updated, i), Some(QueryTimeout(s.id))))
      && ((out.WaitingAtCapacity? || out.WaitingWithCapacity?) && now <= out.deadline ==> r == (updated, None))
  {
    assert queries[i].cfg.Valid() && Lookup.Ascending(queries[i].cfg.target, queries[i].q.nodes);
    hide Lookup.Advance, LookupProofs.Inv, Lookup.ValidEvent, Lookup.Ascending, Lookup.Config.Valid;
  }
}
