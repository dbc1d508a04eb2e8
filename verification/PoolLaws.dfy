/** What one advance of the pool does to each query and what it reports, and over runs, who the nodes are that a
    finished query reports. */
module PoolLaws {
  import opened Keys
  import opened Clock
  import opened PoolSpec
  import opened PoolProofs
  import Lookup
  import LookupProofs
  import LookupLaws
  import LookupResults
  import LookupAnswers

  /** What the pool passes on to the query of an id: the answer or failure of a node as that, a stop as a cancel. */
  ghost predicate PassesOn(ev: Event, id: ActivityId, qev: Lookup.Event) {
    match ev
    case StopQuery(i) => i == id && qev == Lookup.Cancel
    case NodeResponse(i, node, closer) => i == id && qev == Lookup.Response(node, closer)
    case NodeFailure(i, node) => i == id && qev == Lookup.Failure(node)
    case _ => false
  }

  /** The event is about the query of this id. */
  predicate About(ev: Event, id: ActivityId) {
    (ev.StopQuery? || ev.NodeResponse? || ev.NodeFailure?) && ev.id == id
  }

  ghost predicate Gone(queries: seq<Slot>, id: ActivityId) {
    forall s :: s in queries ==> s.id != id
  }

  /** The query s is advanced by qev. One that asks is reported and stays; one that finishes, or waits past its
      deadline, is reported and gone; and one that waits in time stays. */
  ghost predicate Went(s: Slot, now: Instant, qev: Lookup.Event, next: seq<Slot>, out: Outcome) {
    && LookupProofs.Inv(s.cfg, s.q) && Lookup.ValidEvent(s.cfg, qev)
    && var (q, o) := Lookup.Advance(s.cfg, s.q, now, qev);
       match o
       case AskCloser(node, _) => s.(q := q) in next && out == FindCloser(s.id, s.cfg.target, node)
       case SendMessage(node, _) => s.(q := q) in next && out == SendMessage(s.id, node)
       case Finished(results, _) => Gone(next, s.id) && out == QueryFinished(s.id, results)
       case WaitingAtCapacity(_, deadline, _) => Waits(s, q, now, deadline, next, out)
       case WaitingWithCapacity(_, deadline, _) => Waits(s, q, now, deadline, next, out)
  }

  ghost predicate Waits(s: Slot, q: Lookup.State, now: Instant, deadline: Instant, next: seq<Slot>, out: Outcome) {
    if now > deadline then Gone(next, s.id) && out == QueryTimeout(s.id) else s.(q := q) in next
  }

  /** The pool's report is what the query s has to say on qev. */
  ghost predicate Says(s: Slot, now: Instant, qev: Lookup.Event, out: Outcome) {
    && LookupProofs.Inv(s.cfg, s.q) && Lookup.ValidEvent(s.cfg, qev)
    && var o := Lookup.Advance(s.cfg, s.q, now, qev).1;
       match o
       case AskCloser(node, _) => out == FindCloser(s.id, s.cfg.target, node)
       case SendMessage(node, _) => out == SendMessage(s.id, node)
       case Finished(results, _) => out == QueryFinished(s.id, results)
       case WaitingAtCapacity(_, deadline, _) => now > deadline && out == QueryTimeout(s.id)
       case WaitingWithCapacity(_, deadline, _) => now > deadline && out == QueryTimeout(s.id)
  }

  /** A report that the pool neither waits nor is idle is some query's, polled if the event is not about it. */
  ghost predicate Spoken(queries: seq<Slot>, now: Instant, ev: Event, out: Outcome) {
    out.Waits() || out.Idle? || exists s, qev :: s in queries && Heard(ev, s, qev) && Says(s, now, qev, out)
  }

  /** What the query s hears of the event: what is passed on to it, or a poll. */
  ghost predicate Heard(ev: Event, s: Slot, qev: Lookup.Event) {
    if About(ev, s.id) then PassesOn(ev, s.id, qev) else qev.Poll?
  }

  /** What holds of a pool between advances: no two queries share an id and none has finished. */
  ghost predicate Fine(queries: seq<Slot>) {
    && Advanceable(queries) && DistinctIds(queries)
    && forall i :: 0 <= i < |queries| ==> !queries[i].q.finished
  }

  ghost predicate Has(queries: seq<Slot>, id: ActivityId) {
    exists s :: s in queries && s.id == id
  }

  /** No query comes from nowhere. */
  ghost predicate From(queries: seq<Slot>, next: seq<Slot>) {
    forall x :: x in next ==> Has(queries, x.id)
  }

  lemma FromBoth(a: seq<Slot>, b: seq<Slot>, c: seq<Slot>)
    requires From(a, b) && From(b, c)
    ensures From(a, c)
  {
    forall x | x in c ensures Has(a, x.id) {
      var y :| y in b && y.id == x.id;
    }
    hide Has;
  }

  lemma FromSelf(queries: seq<Slot>)
    ensures From(queries, queries)
  {
  }

  lemma RemovedGone(queries: seq<Slot>, i: nat)
    requires DistinctIds(queries) && i < |queries|
    ensures Gone(Removed(queries, i), queries[i].id) && DistinctIds(Removed(queries, i))
  {
    var r := Removed(queries, i);
    assert forall j :: 0 <= j < |r| ==> r[j] == queries[if j < i then j else j + 1];
    forall x | x in r ensures x.id != queries[i].id {
      var j :| 0 <= j < |r| && r[j] == x;
    }
  }

  lemma RemovedMembers(queries: seq<Slot>, i: nat)
    requires i < |queries|
    ensures forall s :: s in queries && s != queries[i] ==> s in Removed(queries, i)
    ensures From(queries, Removed(queries, i))
  {
    var r := Removed(queries, i);
    forall s | s in queries && s != queries[i] ensures s in r {
      var j :| 0 <= j < |queries| && queries[j] == s;
      assert r[if j < i then j else j - 1] == s;
    }
    forall x | x in r ensures Has(queries, x.id) {
      assert x in queries;
    }
  }

  lemma UpdatedMembers(queries: seq<Slot>, i: nat, q: Lookup.State)
    requires DistinctIds(queries) && i < |queries|
    ensures var r := queries[i := queries[i].(q := q)];
      && r[i] in r && DistinctIds(r) && From(queries, r)
      && forall s :: s in queries && s != queries[i] ==> s in r
  {
    var r := queries[i := queries[i].(q := q)];
    forall x | x in r ensures Has(queries, x.id) {
      var j :| 0 <= j < |r| && r[j] == x;
      assert queries[j] in queries && queries[j].id == x.id;
    }
    forall s | s in queries && s != queries[i] ensures s in r {
      var j :| 0 <= j < |queries| && queries[j] == s;
      assert r[j] == s;
    }
    hide Has;
  }

  /** Advancing the query at index i: it goes as it must, and every other stays. With nothing to report it waits
      in time. */
  lemma AdvanceAtExactly(queries: seq<Slot>, i: nat, now: Instant, ev: Lookup.Event, any: Outcome)
    requires Fine(queries) && i < |queries| && now > 0 && Lookup.ValidEvent(queries[i].cfg, ev)
    ensures LookupProofs.Inv(queries[i].cfg, queries[i].q)
    ensures var (next, out) := AdvanceAt(queries, i, now, ev);
      && Fine(next) && (forall s :: s in queries && s != queries[i] ==> s in next) && From(queries, next)
      && Went(queries[i], now, ev, next, if out.Some? then out.value else any)
      && (if out.None? then StaysAt(queries, i, now, ev, next) else Says(queries[i], now, ev, out.value))
  {
    FineAdvanceable(queries);
    StillRunning(queries, i, now, ev);
    AdvanceAtKeeps(queries, i, now, ev);
    AdvanceAtCases(queries, i, now, ev);
    var q := Lookup.Advance(queries[i].cfg, queries[i].q, now, ev).0;
    RemovedGone(queries, i);
    RemovedMembers(queries, i);
    UpdatedMembers(queries, i, q);
    AdvanceAtWent(queries, i, now, ev, any);
    hide Went, Says, AdvanceAt, Lookup.Advance, LookupProofs.Inv, Lookup.ValidEvent, Removed, Gone, DistinctIds, From, Advanceable, StaysAt;
  }

  /** Whatever leaves the pool, no query in it has finished. */
  lemma StillRunning(queries: seq<Slot>, i: nat, now: Instant, ev: Lookup.Event)
    requires Fine(queries) && i < |queries| && now > 0 && Lookup.ValidEvent(queries[i].cfg, ev)
    ensures LookupProofs.Inv(queries[i].cfg, queries[i].q)
    ensures forall j :: 0 <= j < |AdvanceAt(queries, i, now, ev).0| ==> !AdvanceAt(queries, i, now, ev).0[j].q.finished
  {
    FineAdvanceable(queries);
    AdvanceAtStays(queries, i, now, ev);
    RemovedRunning(queries, i);
    StillWaits(queries[i].cfg, queries[i].q, now, ev);
    hide LookupProofs.Inv, Lookup.Advance, Lookup.ValidEvent, Removed, DistinctIds, AdvanceAt, Advanceable;
  }

  lemma RemovedRunning(queries: seq<Slot>, i: nat)
    requires i < |queries| && forall j :: 0 <= j < |queries| ==> !queries[j].q.finished
    ensures forall j :: 0 <= j < |Removed(queries, i)| ==> !Removed(queries, i)[j].q.finished
  {
    var r := Removed(queries, i);
    assert forall j :: 0 <= j < |r| ==> r[j] == queries[if j < i then j else j + 1];
  }

  /** A query that has finished does not stay. */
  lemma AdvanceAtStays(queries: seq<Slot>, i: nat, now: Instant, ev: Lookup.Event)
    requires Advanceable(queries) && i < |queries| && Lookup.ValidEvent(queries[i].cfg, ev)
    ensures var (q, out) := Lookup.Advance(queries[i].cfg, queries[i].q, now, ev);
      var next := AdvanceAt(queries, i, now, ev).0;
      next == Removed(queries, i) || (!out.Finished? && next == queries[i := queries[i].(q := q)])
  {
    hide Lookup.Advance, LookupProofs.Inv, Lookup.ValidEvent, Removed;
  }

  /** Only the query at index i has changed: it has been advanced, waits, and goes as it must in whatever follows. */
  ghost predicate StaysAt(queries: seq<Slot>, i: nat, now: Instant, ev: Lookup.Event, next: seq<Slot>)
    requires i < |queries| && LookupProofs.Inv(queries[i].cfg, queries[i].q) && Lookup.ValidEvent(queries[i].cfg, ev)
  {
    && |next| == |queries| && next[i].id == queries[i].id
    && (forall j :: 0 <= j < |queries| && j != i ==> next[j] == queries[j])
    && forall o: Outcome, later: seq<Slot> :: next[i] in later ==> Went(queries[i], now, ev, later, o)
  }

  lemma AdvanceAtWent(queries: seq<Slot>, i: nat, now: Instant, ev: Lookup.Event, any: Outcome)
    requires i < |queries| && LookupProofs.Inv(queries[i].cfg, queries[i].q) && Lookup.ValidEvent(queries[i].cfg, ev)
    requires Gone(Removed(queries, i), queries[i].id)
    requires var q := Lookup.Advance(queries[i].cfg, queries[i].q, now, ev).0;
      var r := queries[i := queries[i].(q := q)]; r[i] in r
    ensures var (next, out) := AdvanceAt(queries, i, now, ev);
      && Went(queries[i], now, ev, next, if out.Some? then out.value else any)
      && (if out.None? then StaysAt(queries, i, now, ev, next) else Says(queries[i], now, ev, out.value))
  {
    hide Lookup.Advance, LookupProofs.Inv, Lookup.ValidEvent, Removed, Gone;
  }

  /** A query not advanced stays as it is; a poll advances the others at most once each. */
  lemma {:induction false} PollExactly(cfg: Config, queries: seq<Slot>, i: nat, skip: ActivityId, n: nat, now: Instant)
    requires Fine(queries) && i <= |queries| && now > 0
    ensures var (next, out) := PollFrom(cfg, queries, i, skip, n, now);
      && Fine(next) && From(queries, next)
      && (forall j :: 0 <= j < |queries| && (j < i || queries[j].id == skip) ==> queries[j] in next)
      && (out.Waits() || out.Idle? || exists j :: i <= j < |queries| && queries[j].id != skip && Says(queries[j], now, Lookup.Poll, out))
      && forall j :: 0 <= j < |queries| ==> queries[j] in next || Went(queries[j], now, Lookup.Poll, next, out)
    decreases |queries| - i
  {
    hide Fine, Went, Says, AdvanceAt, NextDue, Advanceable, From, StaysAt;
    FineAdvanceable(queries);
    FromSelf(queries);
    if i == |queries| {
    } else if queries[i].id == skip {
      PollExactly(cfg, queries, i + 1, skip, n, now);
    } else {
      PollFits(queries, i);
      var (next, out) := PollFrom(cfg, queries, i, skip, n, now);
      AdvanceAtExactly(queries, i, now, Lookup.Poll, out);
      AdvanceAtKeeps(queries, i, now, Lookup.Poll);
      OthersDiffer(queries, i);
      var (q1, o) := AdvanceAt(queries, i, now, Lookup.Poll);
      if o.None? && n + 1 < cfg.concurrency {
        FineAdvanceable(q1);
        PollExactly(cfg, q1, i + 1, skip, n + 1, now);
        FromBoth(queries, q1, next);
        SaysSame(queries, q1, i, skip, now, out);
        StaysWent(queries, q1, i, skip, now, next, out);
      }
    }
  }

  lemma FineAdvanceable(queries: seq<Slot>)
    requires Fine(queries)
    ensures Advanceable(queries)
  {
    hide Advanceable;
  }

  lemma PollFits(queries: seq<Slot>, i: nat)
    requires Fine(queries) && i < |queries|
    ensures Lookup.ValidEvent(queries[i].cfg, Lookup.Poll)
  {
    hide Fine;
  }

  lemma OthersDiffer(queries: seq<Slot>, i: nat)
    requires Fine(queries) && i < |queries|
    ensures forall j :: 0 <= j < |queries| && j != i ==> queries[j] != queries[i] && queries[j] in queries && queries[j].id != queries[i].id
  {
    hide Advanceable;
  }

  /** Only a query still to be polled has something to say. */
  lemma SaysSame(queries: seq<Slot>, q1: seq<Slot>, i: nat, skip: ActivityId, now: Instant, out: Outcome)
    requires i < |queries| && LookupProofs.Inv(queries[i].cfg, queries[i].q) && Lookup.ValidEvent(queries[i].cfg, Lookup.Poll)
    requires StaysAt(queries, i, now, Lookup.Poll, q1)
    requires out.Waits() || out.Idle? || exists j :: i + 1 <= j < |q1| && q1[j].id != skip && Says(q1[j], now, Lookup.Poll, out)
    ensures out.Waits() || out.Idle? || exists j :: i <= j < |queries| && queries[j].id != skip && Says(queries[j], now, Lookup.Poll, out)
  {
    hide Says, Went, LookupProofs.Inv, Lookup.ValidEvent;
  }

  /** What follows of a poll from index i + 1, for the whole of it. */
  lemma StaysWent(queries: seq<Slot>, q1: seq<Slot>, i: nat, skip: ActivityId, now: Instant, next: seq<Slot>, out: Outcome)
    requires i < |queries| && LookupProofs.Inv(queries[i].cfg, queries[i].q) && Lookup.ValidEvent(queries[i].cfg, Lookup.Poll)
    requires StaysAt(queries, i, now, Lookup.Poll, q1) && queries[i].id != skip
    requires forall j :: 0 <= j < |q1| && (j < i + 1 || q1[j].id == skip) ==> q1[j] in next
    requires forall j :: 0 <= j < |q1| ==> q1[j] in next || Went(q1[j], now, Lookup.Poll, next, out)
    ensures forall j :: 0 <= j < |queries| && (j < i || queries[j].id == skip) ==> queries[j] in next
    ensures forall j :: 0 <= j < |queries| ==> queries[j] in next || Went(queries[j], now, Lookup.Poll, next, out)
  {
    hide Went, LookupProofs.Inv, Lookup.ValidEvent;
    assert q1[i] in next;
  }

  /** The pool as an event finds it: with the query that is added, if one is. */
  function Begun(cfg: Config, queries: seq<Slot>, ev: Event): seq<Slot>
    requires cfg.Valid() && ValidEvent(cfg, queries, ev)
  {
    if ev.AddQuery? then Added(cfg, queries, ev) else queries
  }

  lemma BegunFine(cfg: Config, queries: seq<Slot>, ev: Event)
    requires cfg.Valid() && Fine(queries) && ValidEvent(cfg, queries, ev)
    ensures Fine(Begun(cfg, queries, ev))
  {
    if ev.AddQuery? {
      AddedKeeps(cfg, queries, ev);
    }
    hide LookupProofs.Inv, Lookup.Start, Advanceable;
  }

  /** One advance of the pool: the query that the event is about is advanced by what is passed on to it, and every
      other is polled or left as it is; each goes as it must; and no query comes from nowhere. */
  lemma AdvanceExactly(cfg: Config, queries: seq<Slot>, now: Instant, ev: Event)
    requires cfg.Valid() && Fine(queries) && ValidEvent(cfg, queries, ev) && now > 0
    ensures Advanceable(queries)
    ensures var start, (next, out) := Begun(cfg, queries, ev), Advance(cfg, queries, now, ev);
      && Fine(next) && From(start, next) && Spoken(start, now, ev, out)
      && forall s :: s in start ==>
           if About(ev, s.id) then exists qev :: PassesOn(ev, s.id, qev) && Went(s, now, qev, next, out)
           else s in next || Went(s, now, Lookup.Poll, next, out)
  {
    FineAdvanceable(queries);
    BegunFine(cfg, queries, ev);
    if (ev.StopQuery? || ev.NodeResponse? || ev.NodeFailure?) && Position(queries, ev.id) < |queries| {
      EventExactly(cfg, queries, Position(queries, ev.id), now, ev);
    } else {
      hide *;
      PolledOnly(cfg, queries, now, ev);
      PollAllExactly(cfg, Begun(cfg, queries, ev), "", 0, now);
      PollSpoken(Begun(cfg, queries, ev), now, ev, Advance(cfg, queries, now, ev).1);
    }
  }

  lemma PollAllExactly(cfg: Config, queries: seq<Slot>, skip: ActivityId, n: nat, now: Instant)
    requires Fine(queries) && now > 0
    ensures Advanceable(queries)
    ensures var (next, out) := PollAll(cfg, queries, skip, n, now);
      && Fine(next) && From(queries, next)
      && (forall s :: s in queries && s.id == skip ==> s in next)
      && (out.Waits() || out.Idle? || exists s :: s in queries && s.id != skip && Says(s, now, Lookup.Poll, out))
      && forall s :: s in queries ==> s in next || Went(s, now, Lookup.Poll, next, out)
  {
    FineAdvanceable(queries);
    FromSelf(queries);
    if |queries| > 0 {
      PollExactly(cfg, queries, 0, skip, n, now);
    }
    hide Fine, From, Went, Says, PollFrom;
  }

  lemma PollSpoken(queries: seq<Slot>, now: Instant, ev: Event, out: Outcome)
    requires out.Waits() || out.Idle? || exists s :: s in queries && !About(ev, s.id) && Says(s, now, Lookup.Poll, out)
    ensures Spoken(queries, now, ev, out)
  {
    hide Says, About, PassesOn;
    if !out.Waits() && !out.Idle? {
      var s :| s in queries && !About(ev, s.id) && Says(s, now, Lookup.Poll, out);
      assert Heard(ev, s, Lookup.Poll);
    }
  }

  lemma PolledOnly(cfg: Config, queries: seq<Slot>, now: Instant, ev: Event)
    requires cfg.Valid() && Fine(queries) && ValidEvent(cfg, queries, ev) && now > 0
    requires !((ev.StopQuery? || ev.NodeResponse? || ev.NodeFailure?) && Position(queries, ev.id) < |queries|)
    ensures Advanceable(queries) && Advanceable(Begun(cfg, queries, ev))
    ensures Advance(cfg, queries, now, ev) == PollAll(cfg, Begun(cfg, queries, ev), "", 0, now)
    ensures forall s :: s in Begun(cfg, queries, ev) ==> !About(ev, s.id)
  {
    FineAdvanceable(queries);
    BegunFine(cfg, queries, ev);
    FineAdvanceable(Begun(cfg, queries, ev));
    if ev.StopQuery? || ev.NodeResponse? || ev.NodeFailure? {
      forall s | s in queries ensures s.id != ev.id {
        var j :| 0 <= j < |queries| && queries[j] == s;
      }
    }
    hide PollAll, Fine, Added, Advanceable;
  }

  lemma EventExactly(cfg: Config, queries: seq<Slot>, i: nat, now: Instant, ev: Event)
    requires cfg.Valid() && Fine(queries) && ValidEvent(cfg, queries, ev) && now > 0
    requires (ev.StopQuery? || ev.NodeResponse? || ev.NodeFailure?) && i == Position(queries, ev.id) < |queries|
    ensures Advanceable(queries)
    ensures var (next, out) := Advance(cfg, queries, now, ev);
      && Fine(next) && From(queries, next) && Spoken(queries, now, ev, out)
      && forall s :: s in queries ==>
           if About(ev, s.id) then exists qev :: PassesOn(ev, s.id, qev) && Went(s, now, qev, next, out)
           else s in next || Went(s, now, Lookup.Poll, next, out)
  {
    var qev := QueryEvent(ev);
    Passed(cfg, queries, i, ev);
    hide *;
    FineAdvanceable(queries);
    EventAdvances(cfg, queries, i, now, ev);
    var (q1, o) := AdvanceAt(queries, i, now, qev);
    var (next, out) := Advance(cfg, queries, now, ev);
    AdvanceAtExactly(queries, i, now, qev, out);
    if o.None? {
      PollAllExactly(cfg, q1, ev.id, 1, now);
      FromBoth(queries, q1, next);
      ThenPolled(queries, q1, i, ev, qev, now, next, out);
      ThenSpoken(queries, q1, i, ev, qev, now, out);
    } else {
      EventSpoken(queries, i, ev, qev, now, out);
      Reported(queries, next, i, ev, qev, now, out);
    }
  }

  lemma EventSpoken(queries: seq<Slot>, i: nat, ev: Event, qev: Lookup.Event, now: Instant, out: Outcome)
    requires i < |queries| && PassesOn(ev, queries[i].id, qev) && Says(queries[i], now, qev, out)
    ensures Spoken(queries, now, ev, out)
  {
    assert queries[i] in queries && Heard(ev, queries[i], qev);
    hide Says;
  }

  lemma ThenSpoken(queries: seq<Slot>, q1: seq<Slot>, i: nat, ev: Event, qev: Lookup.Event, now: Instant, out: Outcome)
    requires (ev.StopQuery? || ev.NodeResponse? || ev.NodeFailure?) && i < |queries| && ev.id == queries[i].id
    requires LookupProofs.Inv(queries[i].cfg, queries[i].q) && Lookup.ValidEvent(queries[i].cfg, qev)
    requires StaysAt(queries, i, now, qev, q1)
    requires out.Waits() || out.Idle? || exists s :: s in q1 && s.id != ev.id && Says(s, now, Lookup.Poll, out)
    ensures Spoken(queries, now, ev, out)
  {
    if !out.Waits() && !out.Idle? {
      var s :| s in q1 && s.id != ev.id && Says(s, now, Lookup.Poll, out);
      var j :| 0 <= j < |q1| && q1[j] == s;
      assert queries[j] == s && s in queries && Heard(ev, s, Lookup.Poll);
    }
    hide Says, Went, LookupProofs.Inv, Lookup.ValidEvent;
  }

  lemma Passed(cfg: Config, queries: seq<Slot>, i: nat, ev: Event)
    requires Fine(queries) && ValidEvent(cfg, queries, ev)
    requires (ev.StopQuery? || ev.NodeResponse? || ev.NodeFailure?) && i == Position(queries, ev.id) < |queries|
    ensures Lookup.ValidEvent(queries[i].cfg, QueryEvent(ev)) && PassesOn(ev, queries[i].id, QueryEvent(ev))
    ensures forall s :: s in queries ==> (About(ev, s.id) <==> s == queries[i])
  {
    PassedFits(cfg, queries, i, ev);
    forall s | s in queries ensures About(ev, s.id) <==> s == queries[i] {
      var j :| 0 <= j < |queries| && queries[j] == s;
      SameSlot(queries, i, j);
    }
    hide *;
  }

  lemma SameSlot(queries: seq<Slot>, i: nat, j: nat)
    requires Fine(queries) && i < |queries| && j < |queries|
    ensures queries[i].id == queries[j].id <==> i == j
  {
    hide Advanceable;
  }

  lemma PassedFits(cfg: Config, queries: seq<Slot>, i: nat, ev: Event)
    requires Fine(queries) && ValidEvent(cfg, queries, ev)
    requires (ev.StopQuery? || ev.NodeResponse? || ev.NodeFailure?) && i == Position(queries, ev.id) < |queries|
    ensures Lookup.ValidEvent(queries[i].cfg, QueryEvent(ev)) && PassesOn(ev, queries[i].id, QueryEvent(ev))
    ensures forall s: Slot :: About(ev, s.id) <==> s.id == queries[i].id
  {
    hide Advanceable, DistinctIds, Position;
  }

  lemma Reported(queries: seq<Slot>, next: seq<Slot>, i: nat, ev: Event, qev: Lookup.Event, now: Instant, out: Outcome)
    requires i < |queries| && PassesOn(ev, queries[i].id, qev) && Went(queries[i], now, qev, next, out)
    requires forall s :: s in queries ==> (About(ev, s.id) <==> s == queries[i])
    requires forall s :: s in queries && s != queries[i] ==> s in next
    ensures forall s :: s in queries ==>
      if About(ev, s.id) then exists qev :: PassesOn(ev, s.id, qev) && Went(s, now, qev, next, out)
      else s in next || Went(s, now, Lookup.Poll, next, out)
  {
    hide Went, PassesOn, About;
  }

  lemma ThenPolled(queries: seq<Slot>, q1: seq<Slot>, i: nat, ev: Event, qev: Lookup.Event, now: Instant, next: seq<Slot>, out: Outcome)
    requires (ev.StopQuery? || ev.NodeResponse? || ev.NodeFailure?) && i < |queries|
    requires PassesOn(ev, queries[i].id, qev) && ev.id == queries[i].id
    requires LookupProofs.Inv(queries[i].cfg, queries[i].q) && Lookup.ValidEvent(queries[i].cfg, qev)
    requires StaysAt(queries, i, now, qev, q1)
    requires forall s :: s in queries ==> (About(ev, s.id) <==> s == queries[i])
    requires forall s :: s in queries && s != queries[i] ==> s in q1
    requires forall s :: s in q1 && s.id == ev.id ==> s in next
    requires forall s :: s in q1 ==> s in next || Went(s, now, Lookup.Poll, next, out)
    ensures forall s :: s in queries ==>
      if About(ev, s.id) then exists qev :: PassesOn(ev, s.id, qev) && Went(s, now, qev, next, out)
      else s in next || Went(s, now, Lookup.Poll, next, out)
  {
    hide Went, PassesOn, About, LookupProofs.Inv, Lookup.ValidEvent;
    assert q1[i] in q1 && q1[i] in next;
    assert Went(queries[i], now, qev, next, out);
  }

  // ---------- Who has answered ----------

  /** The query of this id has the node among those that answered. */
  ghost predicate HasAnswer(queries: seq<Slot>, id: ActivityId, k: Bits) {
    exists s :: s in queries && s.id == id && Lookup.Node(k, Lookup.Succeeded) in s.q.nodes
  }

  predicate Answers(ev: Event, id: ActivityId, k: Bits) {
    ev.NodeResponse? && ev.id == id && ev.node == k
  }

  /** A query comes to have a node's answer only by that answer, and reports only nodes whose answer it has. */
  lemma AnswersOnly(cfg: Config, queries: seq<Slot>, now: Instant, ev: Event, id: ActivityId, k: Bits)
    requires cfg.Valid() && Fine(queries) && ValidEvent(cfg, queries, ev) && now > 0
    ensures Advanceable(queries)
    ensures var (next, out) := Advance(cfg, queries, now, ev);
      HasAnswer(next, id, k) || (out.QueryFinished? && out.id == id && k in out.nodes) ==>
        HasAnswer(queries, id, k) || (Answers(ev, id, k) && Has(queries, id))
  {
    AdvanceExactly(cfg, queries, now, ev);
    hide *;
    var start := Begun(cfg, queries, ev);
    var (next, out) := Advance(cfg, queries, now, ev);
    BegunAnswers(cfg, queries, ev, id, k);
    BegunFine(cfg, queries, ev);
    if HasAnswer(next, id, k) {
      var x := Holder(next, id, k);
      var s := Origin(start, next, x);
      AnsweredBefore(start, next, s, x, now, ev, out, k);
    }
    if out.QueryFinished? && out.id == id && k in out.nodes {
      var s, qev := Speaker(start, now, ev, out);
      SpeakerAnswered(start, s, qev, now, ev, out, k);
    }
  }

  lemma Holder(queries: seq<Slot>, id: ActivityId, k: Bits) returns (s: Slot)
    requires HasAnswer(queries, id, k)
    ensures s in queries && s.id == id && Lookup.Node(k, Lookup.Succeeded) in s.q.nodes
  {
    s :| s in queries && s.id == id && Lookup.Node(k, Lookup.Succeeded) in s.q.nodes;
  }

  lemma Origin(start: seq<Slot>, next: seq<Slot>, x: Slot) returns (s: Slot)
    requires From(start, next) && x in next
    ensures s in start && s.id == x.id
  {
    s :| s in start && s.id == x.id;
  }

  lemma Speaker(start: seq<Slot>, now: Instant, ev: Event, out: Outcome) returns (s: Slot, qev: Lookup.Event)
    requires Spoken(start, now, ev, out) && out.QueryFinished?
    ensures s in start && Heard(ev, s, qev) && Says(s, now, qev, out)
  {
    hide Says, Heard;
    s, qev :| s in start && Heard(ev, s, qev) && Says(s, now, qev, out);
  }

  /** A query just added has no answers. */
  lemma BegunAnswers(cfg: Config, queries: seq<Slot>, ev: Event, id: ActivityId, k: Bits)
    requires cfg.Valid() && Fine(queries) && ValidEvent(cfg, queries, ev)
    ensures HasAnswer(Begun(cfg, queries, ev), id, k) ==> HasAnswer(queries, id, k)
    ensures !ev.AddQuery? ==> Begun(cfg, queries, ev) == queries
  {
    if ev.AddQuery? && Position(queries, ev.id) == |queries| {
      var qcfg := QueryConfig(cfg, ev.target, ev.findCloser, ev.numResults);
      StartOk(cfg, ev.target, ev.findCloser, ev.numResults, ev.seeds);
      LookupAnswers.StartKnows(qcfg, ev.seeds, k);
      hide Lookup.Start, QueryConfig, LookupProofs.Inv;
      assert forall s :: s in Added(cfg, queries, ev) ==> s in queries || s == Slot(ev.id, qcfg, Lookup.Start(qcfg, ev.seeds));
    }
  }

  lemma Unfinished(queries: seq<Slot>, s: Slot)
    requires Fine(queries) && s in queries
    ensures LookupProofs.Inv(s.cfg, s.q) && !s.q.finished
  {
    var i :| 0 <= i < |queries| && queries[i] == s;
    hide LookupProofs.Inv, DistinctIds;
  }

  lemma AnsweredBefore(start: seq<Slot>, next: seq<Slot>, s: Slot, x: Slot, now: Instant, ev: Event, out: Outcome, k: Bits)
    requires Fine(start) && Fine(next) && s in start && x in next && s.id == x.id && now > 0
    requires if About(ev, s.id) then exists qev :: PassesOn(ev, s.id, qev) && Went(s, now, qev, next, out)
             else s in next || Went(s, now, Lookup.Poll, next, out)
    requires Lookup.Node(k, Lookup.Succeeded) in x.q.nodes
    ensures HasAnswer(start, s.id, k) || (Answers(ev, s.id, k) && s in start)
  {
    Unfinished(start, s);
    if About(ev, s.id) {
      var qev :| PassesOn(ev, s.id, qev) && Went(s, now, qev, next, out);
      WentTo(next, s, x, now, qev, out);
      LookupLaws.OnlyAnswersSucceed(s.cfg, s.q, now, qev, k);
    } else if s in next {
      SameMember(next, s, x);
    } else {
      WentTo(next, s, x, now, Lookup.Poll, out);
      LookupLaws.OnlyAnswersSucceed(s.cfg, s.q, now, Lookup.Poll, k);
    }
    hide Fine, Went, Lookup.Advance, LookupProofs.Inv, Lookup.ValidEvent;
  }

  lemma SameMember(queries: seq<Slot>, a: Slot, b: Slot)
    requires Fine(queries) && a in queries && b in queries && a.id == b.id
    ensures a == b
  {
    var i :| 0 <= i < |queries| && queries[i] == a;
    var j :| 0 <= j < |queries| && queries[j] == b;
    hide Advanceable;
  }

  /** The query a query has become. */
  lemma WentTo(next: seq<Slot>, s: Slot, x: Slot, now: Instant, qev: Lookup.Event, out: Outcome)
    requires Fine(next) && x in next && x.id == s.id && Went(s, now, qev, next, out)
    ensures LookupProofs.Inv(s.cfg, s.q) && Lookup.ValidEvent(s.cfg, qev)
    ensures x == s.(q := Lookup.Advance(s.cfg, s.q, now, qev).0)
  {
    var q := Lookup.Advance(s.cfg, s.q, now, qev).0;
    if s.(q := q) in next {
      SameMember(next, s.(q := q), x);
    }
    hide Fine, Lookup.Advance, LookupProofs.Inv, Lookup.ValidEvent;
  }

  lemma SpeakerAnswered(start: seq<Slot>, s: Slot, qev: Lookup.Event, now: Instant, ev: Event, out: Outcome, k: Bits)
    requires Fine(start) && s in start && Heard(ev, s, qev) && Says(s, now, qev, out) && now > 0
    requires out.QueryFinished? && k in out.nodes
    ensures s.id == out.id && (HasAnswer(start, s.id, k) || Answers(ev, s.id, k))
  {
    Unfinished(start, s);
    LookupLaws.OnlyAnswersSucceed(s.cfg, s.q, now, qev, k);
    hide Fine, Lookup.Advance, LookupProofs.Inv, Lookup.ValidEvent;
  }

  // ---------- What a reply and a stop do ----------

  /** After a node's reply to a query that waits for it, the query is gone or has the node as answered or failed. */
  lemma ReplyNoted(cfg: Config, queries: seq<Slot>, now: Instant, ev: Event, s: Slot, st: Lookup.NodeState, x: Slot)
    requires cfg.Valid() && Fine(queries) && ValidEvent(cfg, queries, ev) && now > 0
    requires (ev.NodeResponse? || ev.NodeFailure?) && s in queries && s.id == ev.id && Lookup.Node(ev.node, st) in s.q.nodes
    ensures Advanceable(queries)
    ensures x in Advance(cfg, queries, now, ev).0 && x.id == ev.id ==>
      && (ev.NodeResponse? && (st.Waiting? || st.Unresponsive?) ==> Lookup.Node(ev.node, Lookup.Succeeded) in x.q.nodes)
      && (ev.NodeFailure? && !st.Succeeded? && !st.Failed? ==> Lookup.Node(ev.node, Lookup.Failed) in x.q.nodes)
      && (st.Succeeded? || st.Failed? ==> Lookup.Node(ev.node, st) in x.q.nodes)
  {
    AdvanceExactly(cfg, queries, now, ev);
    BegunAnswers(cfg, queries, ev, ev.id, ev.node);
    Unfinished(queries, s);
    var (next, out) := Advance(cfg, queries, now, ev);
    hide *;
    if x in next && x.id == ev.id {
      var qev := PassedTo(queries, s, now, ev, next, out);
      WentTo(next, s, x, now, qev, out);
      LookupLaws.AnswerNoted(s.cfg, s.q, now, qev, ev.node, st);
      PassesReply(ev, s.id, qev);
    }
  }

  lemma PassedTo(queries: seq<Slot>, s: Slot, now: Instant, ev: Event, next: seq<Slot>, out: Outcome) returns (qev: Lookup.Event)
    requires s in queries && (ev.StopQuery? || ev.NodeResponse? || ev.NodeFailure?) && ev.id == s.id
    requires forall s :: s in queries ==>
      if About(ev, s.id) then exists qev :: PassesOn(ev, s.id, qev) && Went(s, now, qev, next, out)
      else s in next || Went(s, now, Lookup.Poll, next, out)
    ensures PassesOn(ev, s.id, qev) && Went(s, now, qev, next, out)
  {
    assert About(ev, s.id);
    hide PassesOn, Went;
    qev :| PassesOn(ev, s.id, qev) && Went(s, now, qev, next, out);
  }

  lemma PassesReply(ev: Event, id: ActivityId, qev: Lookup.Event)
    requires PassesOn(ev, id, qev)
    ensures ev.NodeResponse? ==> qev.Response? && qev.node == ev.node
    ensures ev.NodeFailure? ==> qev.Failure? && qev.node == ev.node
    ensures ev.StopQuery? ==> qev.Cancel?
    ensures ev.StopQuery? || ev.NodeResponse? || ev.NodeFailure?
  {
  }

  /** A query that is stopped leaves the pool and reports the nearest nodes that have answered it. */
  lemma StopReports(cfg: Config, queries: seq<Slot>, now: Instant, s: Slot)
    requires cfg.Valid() && Fine(queries) && now > 0 && s in queries && !s.cfg.coverage
    ensures Advanceable(queries) && ValidEvent(cfg, queries, StopQuery(s.id)) && Lookup.Fits(s.cfg.target, s.q.nodes)
    ensures var (next, out) := Advance(cfg, queries, now, StopQuery(s.id));
      && Gone(next, s.id) && out.QueryFinished? && out.id == s.id
      && LookupResults.NearestSucceeded(s.cfg, s.q.nodes, s.cfg.numResults, out.nodes)
  {
    var ev := StopQuery(s.id);
    AdvanceExactly(cfg, queries, now, ev);
    BegunAnswers(cfg, queries, ev, s.id, []);
    Unfinished(queries, s);
    var (next, out) := Advance(cfg, queries, now, ev);
    hide *;
    var qev := PassedTo(queries, s, now, ev, next, out);
    PassesReply(ev, s.id, qev);
    LookupLaws.CancelReports(s.cfg, s.q, now, []);
    WentFinished(s, now, qev, next, out);
  }

  lemma WentFinished(s: Slot, now: Instant, qev: Lookup.Event, next: seq<Slot>, out: Outcome)
    requires Went(s, now, qev, next, out)
    ensures LookupProofs.Inv(s.cfg, s.q) && Lookup.ValidEvent(s.cfg, qev)
    ensures var o := Lookup.Advance(s.cfg, s.q, now, qev).1;
      o.Finished? ==> Gone(next, s.id) && out == QueryFinished(s.id, o.results)
  {
    hide Lookup.Advance, LookupProofs.Inv, Lookup.ValidEvent, Gone;
  }

  // ---------- Adding ----------

  /** The query was added to this pool by this event. */
  predicate AddedAs(cfg: Config, x: Slot, ev: Event) {
    && ev.AddQuery? && x.id == ev.id && x.cfg.target == ev.target && x.cfg.findCloser == ev.findCloser
    && (ev.numResults > 0 ==> x.cfg.numResults == ev.numResults) && (ev.numResults == 0 ==> x.cfg.numResults == 20)
    && x.cfg.self == cfg.self && !x.cfg.coverage
    && x.cfg.concurrency == cfg.queryConcurrency && x.cfg.requestTimeout == cfg.requestTimeout && x.cfg.timeout == cfg.timeout
  }

  /** A query whose id is in use is not added. Any other joins the end of the pool, as it was asked for, knows its
      seeds but itself, and has done nothing. */
  lemma AddedExactly(cfg: Config, queries: seq<Slot>, ev: Event, n: Lookup.Node)
    requires cfg.Valid() && Fine(queries) && ev.AddQuery? && ValidEvent(cfg, queries, ev)
    ensures Has(queries, ev.id) ==> Begun(cfg, queries, ev) == queries
    ensures !Has(queries, ev.id) ==>
      && |Begun(cfg, queries, ev)| == |queries| + 1
      && var x := Begun(cfg, queries, ev)[|queries|];
      && Begun(cfg, queries, ev) == queries + [x] && AddedAs(cfg, x, ev)
      && (n in x.q.nodes <==> n.state.NotContacted? && n.key in ev.seeds && n.key != cfg.self)
      && x.q.inFlight == x.q.stats.requests == x.q.stats.success == x.q.stats.failure == 0
      && x.q.stats.start == x.q.stats.end == 0 && x.q.deadline == 0 && !x.q.finished && x.q.results == []
  {
    HasPosition(queries, ev.id);
    if !Has(queries, ev.id) {
      var qcfg := QueryConfig(cfg, ev.target, ev.findCloser, ev.numResults);
      LookupLaws.NamedExactly(qcfg, [], ev.seeds, n);
      hide LookupProofs.Inv, Fine;
    }
  }

  lemma HasPosition(queries: seq<Slot>, id: ActivityId)
    ensures Has(queries, id) <==> Position(queries, id) < |queries|
  {
    var i := Position(queries, id);
    if i < |queries| {
      assert queries[i] in queries;
    }
  }

  // ---------- Runs ----------

  /** One advance of a run: the pool before it, what it was given, and what it led to. */
  datatype Entry = Entry(before: seq<Slot>, now: Instant, ev: Event, next: seq<Slot>, out: Outcome)

  ghost predicate Logged(cfg: Config, e: Entry) {
    && cfg.Valid() && Advanceable(e.before) && ValidEvent(cfg, e.before, e.ev) && e.now > 0
    && (e.next, e.out) == Advance(cfg, e.before, e.now, e.ev)
  }

  /** A run from an empty pool. */
  ghost predicate IsLog(cfg: Config, log: seq<Entry>) {
    && (forall i :: 0 <= i < |log| ==> Logged(cfg, log[i]))
    && (|log| > 0 ==> log[0].before == [])
    && forall i :: 0 < i < |log| ==> log[i].before == log[i - 1].next
  }

  lemma LoggedAt(cfg: Config, log: seq<Entry>, i: nat)
    requires IsLog(cfg, log) && i < |log|
    ensures Logged(cfg, log[i]) && log[i].before == if i == 0 then [] else log[i - 1].next
  {
    hide Logged;
  }

  lemma KeepsFine(cfg: Config, e: Entry)
    requires Logged(cfg, e) && Fine(e.before)
    ensures Fine(e.next)
  {
    AdvanceExactly(cfg, e.before, e.now, e.ev);
    hide Fine, Advance, Begun, From, Spoken, Went, PassesOn;
  }

  lemma {:induction false} AlwaysFine(cfg: Config, log: seq<Entry>, i: nat)
    requires IsLog(cfg, log) && i < |log|
    ensures Logged(cfg, log[i]) && Fine(log[i].before) && Fine(log[i].next)
  {
    LoggedAt(cfg, log, i);
    if i > 0 {
      AlwaysFine(cfg, log, i - 1);
    }
    assert Fine([]);
    hide *;
    KeepsFine(cfg, log[i]);
  }

  /** The node answered the query of this id at step j, and since then that query has been in the pool. */
  ghost predicate AnsweredSince(log: seq<Entry>, id: ActivityId, k: Bits, j: nat, i: nat) {
    && j <= i < |log| && Answers(log[j].ev, id, k)
    && forall x :: j <= x <= i ==> Has(log[x].before, id)
  }

  lemma {:induction false} HeldAnswered(cfg: Config, log: seq<Entry>, i: nat, id: ActivityId, k: Bits) returns (j: nat)
    requires IsLog(cfg, log) && 0 < i < |log| && HasAnswer(log[i].before, id, k)
    ensures j < i && AnsweredSince(log, id, k, j, i - 1)
  {
    hide *;
    var e := log[i - 1];
    AlwaysFine(cfg, log, i - 1);
    LoggedAt(cfg, log, i);
    OneStep(cfg, e, id, k);
    if Answers(e.ev, id, k) && Has(e.before, id) {
      j := i - 1;
      SinceNow(log, id, k, j);
    } else {
      SomeBefore(cfg, log, i - 1, id, k);
      j := HeldAnswered(cfg, log, i - 1, id, k);
      StillThere(log, id, k, j, i - 1);
    }
  }

  lemma OneStep(cfg: Config, e: Entry, id: ActivityId, k: Bits)
    requires Logged(cfg, e) && Fine(e.before)
    ensures HasAnswer(e.next, id, k) || (e.out.QueryFinished? && e.out.id == id && k in e.out.nodes) ==>
      HasAnswer(e.before, id, k) || (Answers(e.ev, id, k) && Has(e.before, id))
  {
    AnswersOnly(cfg, e.before, e.now, e.ev, id, k);
    hide Advance, Fine, HasAnswer, Answers, Has;
  }

  lemma SinceNow(log: seq<Entry>, id: ActivityId, k: Bits, j: nat)
    requires j < |log| && Answers(log[j].ev, id, k) && Has(log[j].before, id)
    ensures AnsweredSince(log, id, k, j, j)
  {
    hide Has;
  }

  lemma SomeBefore(cfg: Config, log: seq<Entry>, i: nat, id: ActivityId, k: Bits)
    requires IsLog(cfg, log) && i < |log| && HasAnswer(log[i].before, id, k)
    ensures i > 0
  {
    LoggedAt(cfg, log, i);
    hide IsLog, Logged;
  }

  lemma StillThere(log: seq<Entry>, id: ActivityId, k: Bits, j: nat, i: nat)
    requires 0 < i < |log| && HasAnswer(log[i].before, id, k) && AnsweredSince(log, id, k, j, i - 1)
    ensures AnsweredSince(log, id, k, j, i)
  {
    assert Has(log[i].before, id);
    hide Has;
  }

  /** Over any run from an empty pool, every node a finished query reports has answered that very query. */
  lemma FinishedAnswered(cfg: Config, log: seq<Entry>, i: nat, k: Bits) returns (j: nat)
    requires IsLog(cfg, log) && i < |log| && log[i].out.QueryFinished? && k in log[i].out.nodes
    ensures AnsweredSince(log, log[i].out.id, k, j, i)
  {
    var e := log[i];
    AlwaysFine(cfg, log, i);
    hide *;
    OneStep(cfg, e, e.out.id, k);
    if Answers(e.ev, e.out.id, k) && Has(e.before, e.out.id) {
      j := i;
      SinceNow(log, e.out.id, k, i);
    } else {
      SomeBefore(cfg, log, i, e.out.id, k);
      j := HeldAnswered(cfg, log, i, e.out.id, k);
      StillThere(log, e.out.id, k, j, i);
    }
  }

  /** Over any run from an empty pool, every query in the pool was added as it is. */
  lemma {:induction false} AlwaysAsAdded(cfg: Config, log: seq<Entry>, i: nat, x: Slot) returns (j: nat)
    requires IsLog(cfg, log) && i < |log| && x in log[i].next
    ensures j <= i && AddedAs(cfg, x, log[j].ev)
  {
    var e := log[i];
    AlwaysFine(cfg, log, i);
    LoggedAt(cfg, log, i);
    hide *;
    var s := OneEarlier(cfg, e, x);
    if s in e.before {
      NoneBefore(log, i, s);
      j := AlwaysAsAdded(cfg, log, i - 1, s);
      SameAdded(cfg, s, x, log[j].ev);
    } else {
      j := i;
      SameAdded(cfg, s, x, e.ev);
    }
  }

  lemma NoneBefore(log: seq<Entry>, i: nat, s: Slot)
    requires i < |log| && s in log[i].before && log[i].before == if i == 0 then [] else log[i - 1].next
    ensures i > 0 && s in log[i - 1].next
  {
  }

  lemma SameAdded(cfg: Config, s: Slot, x: Slot, ev: Event)
    requires x.id == s.id && x.cfg == s.cfg && AddedAs(cfg, s, ev)
    ensures AddedAs(cfg, x, ev)
  {
  }

  /** A query in the pool after an advance was in it before, or the advance has added it. */
  lemma OneEarlier(cfg: Config, e: Entry, x: Slot) returns (s: Slot)
    requires Logged(cfg, e) && Fine(e.before) && Fine(e.next) && x in e.next
    ensures s.id == x.id && s.cfg == x.cfg && (s in e.before || AddedAs(cfg, s, e.ev))
  {
    AdvanceExactly(cfg, e.before, e.now, e.ev);
    BegunFine(cfg, e.before, e.ev);
    var start := Begun(cfg, e.before, e.ev);
    assert From(start, e.next);
    s := Origin(start, e.next, x);
    BegunFrom(cfg, e.before, e.ev, s);
    hide Advance, Fine, Begun, From, AddedAs, Went, PassesOn, Logged;
    if s in e.next {
      SameMember(e.next, s, x);
    } else if About(e.ev, s.id) {
      var qev :| PassesOn(e.ev, s.id, qev) && Went(s, e.now, qev, e.next, e.out);
      WentTo(e.next, s, x, e.now, qev, e.out);
    } else {
      WentTo(e.next, s, x, e.now, Lookup.Poll, e.out);
    }
    hide *;
  }

  lemma BegunFrom(cfg: Config, queries: seq<Slot>, ev: Event, s: Slot)
    requires cfg.Valid() && Fine(queries) && ValidEvent(cfg, queries, ev) && s in Begun(cfg, queries, ev)
    ensures s in queries || AddedAs(cfg, s, ev)
  {
    if ev.AddQuery? {
      AddedExactly(cfg, queries, ev, Lookup.Node([], Lookup.NotContacted));
    }
    hide Fine, Has, Added, AddedAs;
  }
}
