/** What one advance of an optimistic publish changes and reports, stated on the nodes it has found and asked; and
    over runs, why a node is asked and that the publish finishes. */
module OptimisticLaws {
  import opened Keys
  import opened Sequences
  import opened OptimisticSpec

  // ---------- Nearness ----------

  /** Fewer nodes of the set are nearer than k than the record is to be kept by. */
  ghost predicate Close(cfg: Config, nodes: set<Bits>, k: Bits) {
    k in nodes && |Nearer(cfg, nodes, k)| < cfg.replicationFactor
  }

  ghost function Nearer(cfg: Config, nodes: set<Bits>, k: Bits): set<Bits> {
    set x | x in nodes && |x| == |k| == |cfg.target| && Distance(x, cfg.target) < Distance(k, cfg.target)
  }

  /** The node is near enough on its own. */
  predicate NearAlone(cfg: Config, k: Bits) {
    |k| == |cfg.target| && Distance(k, cfg.target) as real < cfg.individualThreshold
  }

  lemma NearExactly(cfg: Config, k: Bits)
    ensures Near(cfg, k) <==> NearAlone(cfg, k)
  {
  }

  /** The distances of the first n nodes together. */
  function Total(t: Bits, nodes: seq<Bits>, n: nat): nat
    requires n <= |nodes| && forall i :: 0 <= i < |nodes| ==> |nodes[i]| == |t|
  {
    if n == 0 then 0 else Distance(nodes[n - 1], t) + Total(t, nodes, n - 1)
  }

  lemma {:induction false} TotalIs(t: Bits, nodes: seq<Bits>, n: nat)
    requires n <= |nodes| && forall i :: 0 <= i < |nodes| ==> |nodes[i]| == |t|
    ensures SumDistances(t, nodes[..n]) == Total(t, nodes, n)
  {
    if n > 0 {
      TotalIs(t, nodes, n - 1);
      assert nodes[..n][..n - 1] == nodes[..n - 1];
    }
  }

  /** There are enough nodes to keep the record by, and the nearest of them are near enough on average. */
  ghost predicate NearTogether(cfg: Config, found: seq<Bits>) {
    && NodesFit(cfg, found) && |found| >= cfg.replicationFactor
    && Total(cfg.target, found, cfg.replicationFactor) as real < cfg.setThreshold * cfg.replicationFactor as real
  }

  lemma ThresholdExactly(cfg: Config, s: State)
    requires cfg.Valid() && Fits(cfg, s)
    ensures SetThresholdMet(cfg, s) <==> NearTogether(cfg, s.found)
  {
    hide *;
    FoundFit(cfg, s);
    if |s.found| >= cfg.replicationFactor {
      TotalIs(cfg.target, s.found, cfg.replicationFactor);
      var sum := Total(cfg.target, s.found, cfg.replicationFactor) as real;
      ThresholdIs(cfg, s, sum);
      Mean(sum, cfg.replicationFactor as real, cfg.setThreshold);
    } else {
      TooFew(cfg, s);
    }
  }

  lemma TooFew(cfg: Config, s: State)
    requires cfg.Valid() && Fits(cfg, s) && |s.found| < cfg.replicationFactor
    ensures !SetThresholdMet(cfg, s) && !NearTogether(cfg, s.found)
  {
    hide SumDistances, Total;
  }

  lemma FoundFit(cfg: Config, s: State)
    requires cfg.Valid() && Fits(cfg, s)
    ensures cfg.replicationFactor >= 1 && forall i :: 0 <= i < |s.found| ==> |s.found[i]| == |cfg.target|
  {
  }

  lemma ThresholdIs(cfg: Config, s: State, sum: real)
    requires cfg.Valid() && Fits(cfg, s) && |s.found| >= cfg.replicationFactor
    requires forall i :: 0 <= i < |s.found| ==> |s.found[i]| == |cfg.target|
    requires sum == Total(cfg.target, s.found, cfg.replicationFactor) as real
    requires sum == SumDistances(cfg.target, s.found[..cfg.replicationFactor]) as real
    ensures cfg.replicationFactor as real > 0.0
    ensures SetThresholdMet(cfg, s) <==> sum / cfg.replicationFactor as real < cfg.setThreshold
    ensures NearTogether(cfg, s.found) <==> sum < cfg.setThreshold * cfg.replicationFactor as real
  {
    hide SumDistances, Total;
  }

  lemma Mean(sum: real, r: real, bound: real)
    requires r > 0.0
    ensures sum / r < bound <==> sum < bound * r
  {
    assert sum / r * r == sum;
    Scales(sum / r, bound, r);
  }

  lemma Scales(a: real, b: real, r: real)
    requires r > 0.0
    ensures a < b <==> a * r < b * r
  {
  }

  /** The first nodes in order of distance are the near ones. */
  lemma FirstAreClose(cfg: Config, s: State, k: Bits)
    requires cfg.Valid() && Ascending(cfg.target, s.found)
    ensures k in s.found[..Limit(cfg, s)] <==> Close(cfg, Members(s.found), k)
  {
    hide Distance;
    if k in s.found {
      var i :| 0 <= i < |s.found| && s.found[i] == k;
      RankIs(cfg, s.found, i);
      var n := Limit(cfg, s);
      if k in s.found[..n] {
        var j :| 0 <= j < n && s.found[j] == k;
        assert i == j by {
          AscendingDistinct(cfg.target, s.found);
        }
      } else {
        InFront(s.found, n, i);
      }
    }
  }

  lemma InOrder(t: Bits, s: seq<Bits>, i: nat, j: nat)
    requires Ascending(t, s) && i < |s| && j < |s|
    ensures |s[i]| == |s[j]| == |t| && (Distance(s[j], t) < Distance(s[i], t) ==> j < i)
  {
    hide Distance;
    if i < j {
      assert Distance(s[i], t) < Distance(s[j], t);
    }
  }

  lemma RankIs(cfg: Config, found: seq<Bits>, i: nat)
    requires Ascending(cfg.target, found) && i < |found|
    ensures |Nearer(cfg, Members(found), found[i])| == i
  {
    hide Distance;
    var front := found[..i];
    forall x ensures x in Nearer(cfg, Members(found), found[i]) <==> x in Members(front) {
      if x in Nearer(cfg, Members(found), found[i]) {
        var j :| 0 <= j < |found| && found[j] == x;
        InOrder(cfg.target, found, i, j);
        assert front[j] == x;
      }
      if x in Members(front) {
        var j :| 0 <= j < |front| && front[j] == x;
        assert found[j] == x && Distance(found[j], cfg.target) < Distance(found[i], cfg.target);
      }
    }
    AscendingDistinct(cfg.target, found);
    assert forall a, b :: 0 <= a < b < |front| ==> front[a] == found[a] && front[b] == found[b];
    assert Distinct(front);
    DistinctCount(front, Members(front));
    assert Nearer(cfg, Members(found), found[i]) == Members(front);
  }

  // ---------- One advance ----------

  /** The event is one that the query pool is advanced on: any but a store's outcome and a stop once the walk is over. */
  predicate Consults(s: State, ev: Event) {
    !ev.StoreSuccess? && !ev.StoreFailure? && (ev.Stop? ==> s.walking)
  }

  /** The walk is abandoned, for the nodes found by then are near enough together. */
  ghost predicate EndsEarly(cfg: Config, s: State, ev: Event, found: seq<Bits>) {
    (s.walking || ev.Start?) && !s.stopped && !ev.Stop? && NearTogether(cfg, found)
  }

  /** The pool reports the walk over. */
  predicate Over(report: Report) {
    report.WalkFinished? || report.WalkTimeout?
  }

  /** The node has neither been asked nor failed, the event included. */
  predicate StillUnasked(s: State, ev: Event, k: Bits) {
    k !in s.contacted && k !in s.failed && !(ev.StoreFailure? && ev.node == k)
  }

  /** What an event has led to before the pool's report is noted. */
  ghost predicate Heard(cfg: Config, s: State, ev: Event, p: State, early: bool) {
    && p.started == (s.started || ev.Start?) && p.stopped == (s.stopped || ev.Stop?)
    && p.walking == ((s.walking || ev.Start?) && !early)
    && (forall k :: k in p.found <==> k in s.found || k in Named(cfg, ev))
    && p.contacted == s.contacted && p.waiting == s.waiting - StoredBy(ev) - RefusedBy(ev) && p.failed == s.failed + RefusedBy(ev)
    && (forall k :: k in p.todo <==>
          || k in s.todo
          || (k in p.found && k !in s.found && NearAlone(cfg, k))
          || (early && StillUnasked(s, ev, k) && Close(cfg, Members(p.found), k)))
    && p.nextDue == 0
  }

  lemma DiscoverExactly(cfg: Config, s: State, nodes: seq<Bits>)
    requires Core(cfg, s) && NodesFit(cfg, nodes)
    ensures var r := Discover(cfg, s, nodes);
      && Core(cfg, r) && Fits(cfg, s)
      && (forall k :: k in r.found <==> k in s.found || k in nodes)
      && (forall k :: k in r.todo <==> k in s.todo || (k in r.found && k !in s.found && NearAlone(cfg, k)))
      && r == s.(found := r.found, seen := r.seen, todo := r.todo)
  {
    DiscoverKeepsCore(cfg, s, nodes);
    var r := Discover(cfg, s, nodes);
    forall k ensures k in r.found <==> k in s.found || k in nodes {
      FoundIsSeen(cfg, s, k);
      FoundIsSeen(cfg, r, k);
    }
    forall k ensures Near(cfg, k) <==> NearAlone(cfg, k) {
      NearExactly(cfg, k);
    }
    hide Core, SortByDistance, Near, NearAlone;
  }

  lemma EndWalkExactly(cfg: Config, s: State)
    requires Core(cfg, s)
    ensures var r := EndWalk(cfg, s);
      && Core(cfg, r) && Fits(cfg, s) && r == s.(walking := false, todo := r.todo)
      && (forall k :: k in r.todo <==>
            k in s.todo || (!s.stopped && k !in s.contacted && k !in s.failed && Close(cfg, Members(s.found), k)))
  {
    EndWalkKeepsCore(cfg, s);
    forall k ensures k in s.found[..Limit(cfg, s)] <==> Close(cfg, Members(s.found), k) {
      FirstAreClose(cfg, s, k);
    }
    assert forall k :: k in s.waiting ==> k in s.contacted;
    hide Ascending, Distinct, NearAlone, Close;
  }

  lemma HandleExactly(cfg: Config, s: State, ev: Event)
    requires Core(cfg, s) && Fits(cfg, s) && (ev.NodeResponse? ==> NodesFit(cfg, ev.closer))
    ensures var (h, advance) := HandleEvent(cfg, s.(nextDue := 0), ev);
      Core(cfg, h) && Fits(cfg, h) && Heard(cfg, s, ev, h, false) && advance == Consults(s, ev)
  {
    CoreFacts(cfg, s);
    SeedsFit(cfg);
    CoreOf(cfg, s, s.(nextDue := 0));
    HandleKeepsCore(cfg, s.(nextDue := 0), ev);
    match ev {
      case Start =>
        var t := s.(nextDue := 0, started := true, walking := true);
        CoreOf(cfg, s, t);
        HeardNamed(cfg, s, ev, t, cfg.seeds);
      case NodeResponse(_, closer) =>
        HeardNamed(cfg, s, ev, s.(nextDue := 0), closer);
      case _ =>
        HeardOutcome(cfg, s, ev);
    }
    hide Core, Discover, Heard, NodesFit, Config.Valid;
  }

  lemma SeedsFit(cfg: Config)
    requires cfg.Valid()
    ensures NodesFit(cfg, cfg.seeds)
  {
  }

  /** The due time and the walk's state are no part of what runs keep. */
  lemma CoreOf(cfg: Config, s: State, t: State)
    requires Core(cfg, s) && t == s.(nextDue := t.nextDue, started := t.started, walking := t.walking)
    ensures Core(cfg, t) && Fits(cfg, t)
  {
    hide Distance, Distinct, NearAlone;
  }

  lemma HeardNamed(cfg: Config, s: State, ev: Event, t: State, nodes: seq<Bits>)
    requires Core(cfg, s) && Core(cfg, t) && NodesFit(cfg, nodes) && (ev.Start? || ev.NodeResponse?)
    requires t == s.(nextDue := 0, started := s.started || ev.Start?, walking := s.walking || ev.Start?)
    requires nodes == if ev.Start? then cfg.seeds else ev.closer
    ensures Fits(cfg, t) && Heard(cfg, s, ev, Discover(cfg, t, nodes), false)
  {
    DiscoverExactly(cfg, t, nodes);
    hide Core, Discover, NearAlone, Close, NodesFit;
  }

  lemma HeardOutcome(cfg: Config, s: State, ev: Event)
    requires cfg.Valid() && Fits(cfg, s) && !ev.Start? && !ev.NodeResponse?
    requires Core(cfg, s)
    ensures Heard(cfg, s, ev, HandleEvent(cfg, s.(nextDue := 0), ev).0, false)
    ensures HandleEvent(cfg, s.(nextDue := 0), ev).1 == Consults(s, ev)
  {
    hide Core, Discover, NearAlone, Close, NodesFit;
  }

  lemma PreparedExactly(cfg: Config, s: State, ev: Event)
    requires Core(cfg, s) && Fits(cfg, s) && (ev.NodeResponse? ==> NodesFit(cfg, ev.closer))
    ensures var (p, advance) := Prepare(cfg, s, ev);
      && Core(cfg, p) && Fits(cfg, p) && Heard(cfg, s, ev, p, EndsEarly(cfg, s, ev, p.found))
      && advance == (Consults(s, ev) || EndsEarly(cfg, s, ev, p.found))
  {
    hide *;
    CoreFacts(cfg, s);
    HandleExactly(cfg, s, ev);
    PrepareIs(cfg, s, ev);
    var h := HandleEvent(cfg, s.(nextDue := 0), ev).0;
    ThresholdExactly(cfg, h);
    StillUnaskedThen(cfg, s, ev, h);
    EarlyExactly(cfg, s, ev, h);
    if EndsEarly(cfg, s, ev, h.found) {
      EndWalkExactly(cfg, h);
      HeardEarly(cfg, s, ev, h, EndWalk(cfg, h));
    }
  }

  lemma PrepareIs(cfg: Config, s: State, ev: Event)
    requires cfg.Valid() && Fits(cfg, s) && (ev.NodeResponse? ==> NodesFit(cfg, ev.closer))
    ensures Fits(cfg, s.(nextDue := 0))
    ensures var (h, advance) := HandleEvent(cfg, s.(nextDue := 0), ev);
      && Fits(cfg, h)
      && Prepare(cfg, s, ev) == if h.walking && !h.stopped && SetThresholdMet(cfg, h) then (EndWalk(cfg, h), true) else (h, advance)
  {
    hide HandleEvent, EndWalk, SetThresholdMet, NodesFit;
  }

  lemma EarlyExactly(cfg: Config, s: State, ev: Event, h: State)
    requires h.walking <==> s.walking || ev.Start?
    requires h.stopped <==> s.stopped || ev.Stop?
    ensures EndsEarly(cfg, s, ev, h.found) <==> h.walking && !h.stopped && NearTogether(cfg, h.found)
  {
    hide NearTogether;
  }

  lemma HeardEarly(cfg: Config, s: State, ev: Event, h: State, e: State)
    requires Heard(cfg, s, ev, h, false) && e == h.(walking := false, todo := e.todo) && !h.stopped
    requires forall k :: k !in h.contacted && k !in h.failed <==> StillUnasked(s, ev, k)
    requires forall k :: k in e.todo <==>
      k in h.todo || (!h.stopped && k !in h.contacted && k !in h.failed && Close(cfg, Members(h.found), k))
    ensures Heard(cfg, s, ev, e, true)
  {
    hide NearAlone, Close, Named, Members;
  }

  /** Whom an event leaves unasked. */
  lemma StillUnaskedThen(cfg: Config, s: State, ev: Event, h: State)
    requires Heard(cfg, s, ev, h, false)
    ensures forall k :: k !in h.contacted && k !in h.failed <==> StillUnasked(s, ev, k)
    ensures h.stopped <==> s.stopped || ev.Stop?
    ensures h.walking <==> s.walking || ev.Start?
  {
    hide NearAlone, Close, Named;
  }

  /** What the pool's report has led to, after an event has led to p. */
  ghost predicate Noted(cfg: Config, p: State, report: Report, r: State) {
    && r.started == p.started && r.stopped == p.stopped && r.walking == (p.walking && !Over(report))
    && (forall k :: k in r.found <==> k in p.found || (report.WalkFinished? && k in report.closest))
    && r.contacted == p.contacted && r.waiting == p.waiting && r.failed == p.failed
    && (forall k :: k in r.todo <==>
          || k in p.todo
          || (k in r.found && k !in p.found && NearAlone(cfg, k))
          || (Over(report) && !p.stopped && k !in p.contacted && k !in p.failed && Close(cfg, Members(r.found), k)))
    && r.nextDue == (if report.Waits? then report.nextDue else p.nextDue)
  }

  lemma NotedExactly(cfg: Config, p: State, report: Report)
    requires Core(cfg, p) && Fits(cfg, p) && (report.WalkFinished? ==> NodesFit(cfg, report.closest))
    ensures var r := NoteReport(cfg, p, report); Core(cfg, r) && Noted(cfg, p, report, r)
  {
    ReportKeepsCore(cfg, p, report);
    match report {
      case WalkFinished(closest) =>
        DiscoverExactly(cfg, p, closest);
        EndWalkExactly(cfg, Discover(cfg, p, closest));
        NotedEnd(cfg, p, report, Discover(cfg, p, closest), EndWalk(cfg, Discover(cfg, p, closest)));
      case WalkTimeout =>
        EndWalkExactly(cfg, p);
        NotedEnd(cfg, p, report, p, EndWalk(cfg, p));
      case _ =>
        NotedRest(cfg, p, report);
    }
    hide Core, Discover, EndWalk, Noted, NearAlone, Close, NodesFit;
  }

  lemma NotedEnd(cfg: Config, p: State, report: Report, d: State, r: State)
    requires Over(report)
    requires forall k :: k in d.found <==> k in p.found || (report.WalkFinished? && k in report.closest)
    requires forall k :: k in d.todo <==> k in p.todo || (k in d.found && k !in p.found && NearAlone(cfg, k))
    requires d == p.(found := d.found, seen := d.seen, todo := d.todo)
    requires r == d.(walking := false, todo := r.todo)
    requires forall k :: k in r.todo <==>
      k in d.todo || (!d.stopped && k !in d.contacted && k !in d.failed && Close(cfg, Members(d.found), k))
    ensures Noted(cfg, p, report, r)
  {
    hide NearAlone, Close, Members;
  }

  lemma NotedRest(cfg: Config, p: State, report: Report)
    requires Core(cfg, p) && Fits(cfg, p) && !Over(report)
    ensures Noted(cfg, p, report, NoteReport(cfg, p, report))
  {
    hide NearAlone, Close, Core, Members, NodesFit;
  }

  /** What an advance reports, when its queue holds the nodes it may ask and p is the state it has come to: the pool's
      request first; a stopped publish fails what is open; otherwise one queued node is asked, or an outcome or the
      walk is waited for, or the publish is finished. */
  ghost predicate Chosen(p: State, asks: bool, report: Report, next: State, out: Outcome) {
    if asks && report.FindCloser? then out == AskCloser(report.node) && next == p
    else if p.stopped then
      && out == Finished(p.contacted, p.failed + p.todo + p.waiting)
      && next == p.(todo := {}, waiting := {}, failed := p.failed + p.todo + p.waiting)
    else if p.todo != {} then
      && out.StoreRecord? && out.node in p.todo
      && next == p.(todo := p.todo - {out.node}, waiting := p.waiting + {out.node}, contacted := p.contacted + [out.node])
    else
      && next == p
      && out == if p.waiting != {} || p.walking then Waiting(p.nextDue)
                else if p.started then Finished(p.contacted, p.failed)
                else Idle
  }

  /** One advance: what the event leads to, then the pool's report if the pool is consulted, then what is reported. */
  lemma AdvanceExactly(cfg: Config, s: State, ev: Event, report: Report, pick: Bits) returns (p: State, r: State)
    requires Core(cfg, s) && Fits(cfg, s) && ValidInput(cfg, ev, report) && Picks(cfg, s, ev, report, pick)
    ensures Core(cfg, p) && Core(cfg, r) && cfg.Valid()
    ensures var early := EndsEarly(cfg, s, ev, p.found);
      var asks := Consults(s, ev) || early;
      var (next, out) := Advance(cfg, s, ev, report, pick);
      && Heard(cfg, s, ev, p, early)
      && (if asks then Noted(cfg, p, report, r) else r == p)
      && Chosen(r, asks, report, next, out)
  {
    hide *;
    InputFacts(cfg, ev, report);
    CoreFacts(cfg, s);
    PreparedExactly(cfg, s, ev);
    p := Prepare(cfg, s, ev).0;
    r := Polled(cfg, s, ev, report);
    NotedExactly(cfg, p, report);
    PicksOne(cfg, s, ev, report, pick);
    AdvanceIs(cfg, s, ev, report, pick);
    ChosenExactly(r, Prepare(cfg, s, ev).1, report, pick);
  }

  lemma AdvanceIs(cfg: Config, s: State, ev: Event, report: Report, pick: Bits)
    requires cfg.Valid() && Fits(cfg, s) && ValidInput(cfg, ev, report)
    ensures var (p, asks) := Prepare(cfg, s, ev);
      && Fits(cfg, p)
      && Polled(cfg, s, ev, report) == (if asks then NoteReport(cfg, p, report) else p)
      && Advance(cfg, s, ev, report, pick) ==
           if asks && report.FindCloser? then (Polled(cfg, s, ev, report), AskCloser(report.node))
           else Proceed(Polled(cfg, s, ev, report), pick)
  {
    hide Prepare, NoteReport, Proceed, NodesFit;
  }

  lemma ChosenExactly(r: State, asks: bool, report: Report, pick: Bits)
    requires r.todo != {} ==> pick in r.todo
    ensures var (next, out) := if asks && report.FindCloser? then (r, AskCloser(report.node)) else Proceed(r, pick);
      Chosen(r, asks, report, next, out)
  {
  }

  // ---------- The end of the walk ----------

  /** Whenever the pool is consulted and reports the walk over, it is; and if it was under way until then, the nodes
      nearest by then have been asked or are about to be. */
  lemma WalkEnds(cfg: Config, s: State, ev: Event, report: Report, pick: Bits)
    requires Inv(cfg, s) && ValidInput(cfg, ev, report) && Expected(s, ev) && Fits(cfg, s) && Picks(cfg, s, ev, report, pick)
    requires !ev.StoreSuccess? && !ev.StoreFailure? && (report.WalkFinished? || report.WalkTimeout?)
    ensures var next := Advance(cfg, s, ev, report, pick).0;
      && !next.walking
      && (s.walking || ev.Start? ==> Owed(next, Nearest(cfg, next)))
      && (forall k :: Close(cfg, Members(next.found), k) ==> k in next.todo || k in next.contacted)
  {
    hide *;
    InvFacts(cfg, s);
    InvCore(cfg, s);
    ExpectedFacts(s, ev);
    IsOver(s, ev, report);
    var p, r := AdvanceExactly(cfg, s, ev, report, pick);
    var (next, out) := Advance(cfg, s, ev, report, pick);
    NotWalking(cfg, s, ev, p, report, r, next, out);
    StoresOnce(cfg, s, ev, report, pick);
    InvFacts(cfg, next);
    FailedAsked(cfg, next);
    CloseQueued(cfg, s, ev, p, report, r, next, out);
    if s.walking || ev.Start? {
      WalkEndsAtNearest(cfg, s, ev, report, pick);
    }
  }

  lemma InvCore(cfg: Config, s: State)
    requires Inv(cfg, s)
    ensures Core(cfg, s)
  {
    hide Core;
  }

  lemma IsOver(s: State, ev: Event, report: Report)
    requires !ev.Stop? && !ev.StoreSuccess? && !ev.StoreFailure? && (report.WalkFinished? || report.WalkTimeout?)
    ensures Consults(s, ev) && Over(report)
  {
  }

  lemma NotWalking(cfg: Config, s: State, ev: Event, p: State, report: Report, r: State, next: State, out: Outcome)
    requires Over(report) && Noted(cfg, p, report, r) && Chosen(r, true, report, next, out)
    ensures !next.walking && next.found == r.found
  {
    hide NearAlone, Close, Members;
  }

  lemma FailedAsked(cfg: Config, s: State)
    requires Inv(cfg, s)
    ensures forall k :: k in s.failed ==> k in s.contacted
  {
    hide Core;
  }

  lemma CloseQueued(cfg: Config, s: State, ev: Event, p: State, report: Report, r: State, next: State, out: Outcome)
    requires Over(report) && Noted(cfg, p, report, r) && Chosen(r, true, report, next, out) && !next.stopped
    requires forall k :: k in next.failed ==> k in next.contacted
    ensures forall k :: Close(cfg, Members(next.found), k) ==> k in next.todo || k in next.contacted
  {
    forall k | Close(cfg, Members(next.found), k) ensures k in next.todo || k in next.contacted {
      assert k in r.todo || k in r.contacted || k in r.failed by {
        assert Close(cfg, Members(r.found), k);
      }
    }
    hide NearAlone, Close, Members;
  }

  // ---------- Why a node is asked ----------

  /** The walk is over after the step, and the node is among the nearest of those found by then. */
  ghost predicate CloseAtEnd(cfg: Config, s: State, input: Input, next: State, k: Bits) {
    && !next.walking && (s.walking || input.ev.Start? || Over(input.report))
    && (Close(cfg, Members(s.found) + Named(cfg, input.ev), k) || Close(cfg, Members(next.found), k))
  }

  predicate Asked(s: State, k: Bits) {
    k in s.todo || k in s.contacted
  }

  lemma AskedStep(cfg: Config, s: State, input: Input, next: State, k: Bits)
    requires Core(cfg, s) && TakesAny(cfg, s, input, next) && Asked(next, k)
    ensures Asked(s, k) || NearAlone(cfg, k) || CloseAtEnd(cfg, s, input, next, k)
  {
    TakesFacts(cfg, s, input, next);
    var p, r := AdvanceExactly(cfg, s, input.ev, input.report, input.pick);
    var out := Advance(cfg, s, input.ev, input.report, input.pick).1;
    hide *;
    WasQueued(cfg, s, input.ev, p, input.report, r, next, out, k);
    FoundByThen(cfg, s, input.ev, p, EndsEarly(cfg, s, input.ev, p.found));
    CausedBy(cfg, s, input, p, r, next, out, k);
  }

  lemma TakesFacts(cfg: Config, s: State, input: Input, next: State)
    requires TakesAny(cfg, s, input, next)
    ensures cfg.Valid() && Fits(cfg, s) && ValidInput(cfg, input.ev, input.report) && Picks(cfg, s, input.ev, input.report, input.pick)
    ensures next == Advance(cfg, s, input.ev, input.report, input.pick).0
  {
    hide Fits, ValidInput, Picks, Advance;
  }

  lemma FoundByThen(cfg: Config, s: State, ev: Event, p: State, early: bool)
    requires Heard(cfg, s, ev, p, early)
    ensures Members(p.found) == Members(s.found) + Named(cfg, ev)
  {
    hide NearAlone, Close, Named;
  }

  lemma WasQueued(cfg: Config, s: State, ev: Event, p: State, report: Report, r: State, next: State, out: Outcome, k: Bits)
    requires var early := EndsEarly(cfg, s, ev, p.found); var asks := Consults(s, ev) || early;
      Heard(cfg, s, ev, p, early) && (if asks then Noted(cfg, p, report, r) else r == p) && Chosen(r, asks, report, next, out)
    requires Asked(next, k)
    ensures Asked(r, k)
  {
    hide NearAlone, Close, Named, Members, Heard, Noted, EndsEarly;
  }

  lemma CausedBy(cfg: Config, s: State, input: Input, p: State, r: State, next: State, out: Outcome, k: Bits)
    requires var ev, report := input.ev, input.report;
      var early := EndsEarly(cfg, s, ev, p.found); var asks := Consults(s, ev) || early;
      Heard(cfg, s, ev, p, early) && (if asks then Noted(cfg, p, report, r) else r == p) && Chosen(r, asks, report, next, out)
    requires Asked(r, k) && Members(p.found) == Members(s.found) + Named(cfg, input.ev)
    ensures Asked(s, k) || NearAlone(cfg, k) || CloseAtEnd(cfg, s, input, next, k)
  {
    hide NearAlone, Close, Named, Members, NearTogether;
  }

  /** Over any run, whatever happens in it, a node is asked, or is to be, only if it is near enough on its own, or was
      among the nearest found when the walk was over. */
  lemma {:induction false} AskedForCause(cfg: Config, run: seq<State>, ins: seq<Input>, i: nat, k: Bits) returns (j: nat)
    requires cfg.Valid() && IsAnyRun(cfg, run, ins) && i <= |ins| && Asked(run[i], k)
    ensures NearAlone(cfg, k) || (j < i && CloseAtEnd(cfg, run[j], ins[j], run[j + 1], k))
  {
    hide *;
    j := 0;
    RunSteps(cfg, run, ins);
    NobodyAtStart(k);
    AlwaysAskedOnce(cfg, run, ins, i - 1);
    AskedStep(cfg, run[i - 1], ins[i - 1], run[i], k);
    if CloseAtEnd(cfg, run[i - 1], ins[i - 1], run[i], k) {
      j := i - 1;
    } else if Asked(run[i - 1], k) {
      j := AskedForCause(cfg, run, ins, i - 1, k);
    }
  }

  lemma RunSteps(cfg: Config, run: seq<State>, ins: seq<Input>)
    requires IsAnyRun(cfg, run, ins)
    ensures |run| == |ins| + 1 && run[0] == Initial()
    ensures forall i :: 0 <= i < |ins| ==> TakesAny(cfg, run[i], ins[i], run[i + 1])
  {
    hide TakesAny, Initial;
  }

  lemma NobodyAtStart(k: Bits)
    ensures !Asked(Initial(), k)
  {
  }

  // ---------- The publish finishes ----------

  /** The walk is over: the pool has nothing to ask, and no new node is named. */
  predicate Quiet(s: State, input: Input) {
    && !input.ev.Start? && (input.report.Waits? || input.report.PoolIdle?)
    && (input.ev.NodeResponse? ==> forall k :: k in input.ev.closer ==> k in s.found)
  }

  /** With the walk over and nothing new, an advance asks one queued node; with none queued it finishes, unless an
      outcome is still waited for. */
  lemma QuietStep(cfg: Config, s: State, input: Input, next: State)
    requires Core(cfg, s) && TakesAny(cfg, s, input, next) && !s.stopped && !input.ev.Stop? && s.started && !s.walking && Quiet(s, input)
    ensures cfg.Valid() && Fits(cfg, s) && ValidInput(cfg, input.ev, input.report)
    ensures var out := Advance(cfg, s, input.ev, input.report, input.pick).1;
      && next.started && !next.walking && !next.stopped
      && (s.todo != {} ==> out.StoreRecord? && out.node in s.todo && next.todo == s.todo - {out.node})
      && (s.todo == {} ==> next.todo == {} && (out.Finished? <==> next.waiting == {}) && (out.Waiting? <==> next.waiting != {}))
  {
    TakesFacts(cfg, s, input, next);
    var p, r := AdvanceExactly(cfg, s, input.ev, input.report, input.pick);
    var out := Advance(cfg, s, input.ev, input.report, input.pick).1;
    hide *;
    QuietHeard(cfg, s, input, p);
    QuietNoted(cfg, s, input, p, r);
    QuietChosen(s, r, Consults(s, input.ev), input.report, next, out);
  }

  lemma QuietHeard(cfg: Config, s: State, input: Input, p: State)
    requires Quiet(s, input) && s.started && !s.walking && !s.stopped && !input.ev.Stop?
    requires Heard(cfg, s, input.ev, p, EndsEarly(cfg, s, input.ev, p.found))
    ensures !EndsEarly(cfg, s, input.ev, p.found)
    ensures p.todo == s.todo && p.started && !p.walking && !p.stopped
    ensures forall k :: k in p.found <==> k in s.found
  {
    hide NearAlone, Close;
  }

  lemma QuietNoted(cfg: Config, s: State, input: Input, p: State, r: State)
    requires Quiet(s, input) && p.todo == s.todo && p.started && !p.walking && !p.stopped
    requires if Consults(s, input.ev) then Noted(cfg, p, input.report, r) else r == p
    ensures r.todo == s.todo && r.started && !r.walking && !r.stopped && !input.report.FindCloser?
  {
    hide NearAlone, Close, Members;
  }

  lemma QuietChosen(s: State, r: State, asks: bool, report: Report, next: State, out: Outcome)
    requires Chosen(r, asks, report, next, out) && r.todo == s.todo && r.started && !r.walking && !r.stopped && !report.FindCloser?
    ensures next.started && !next.walking && !next.stopped
    ensures s.todo != {} ==> out.StoreRecord? && out.node in s.todo && next.todo == s.todo - {out.node}
    ensures s.todo == {} ==> next.todo == {} && (out.Finished? <==> next.waiting == {}) && (out.Waiting? <==> next.waiting != {})
  {
  }

  /** Nothing new comes from input j to input i, and the walk is over at j. */
  ghost predicate QuietFrom(run: seq<State>, ins: seq<Input>, j: nat, i: nat)
    requires |run| == |ins| + 1 && j <= i <= |ins|
  {
    run[j].started && !run[j].walking && forall x :: j <= x < i ==> Quiet(run[x], ins[x])
  }

  /** Each advance asks one queued node, until there is none. */
  lemma {:induction false} Drains(cfg: Config, run: seq<State>, ins: seq<Input>, j: nat, i: nat)
    requires cfg.Valid() && IsRun(cfg, run, ins) && j <= i <= |ins| && |run| == |ins| + 1 && QuietFrom(run, ins, j, i)
    ensures run[i].started && !run[i].walking
    ensures |run[i].todo| == 0 || |run[i].todo| + (i - j) <= |run[j].todo|
    decreases i
  {
    hide *;
    if i == j {
      QuietUpTo(run, ins, j, i);
    } else {
      QuietUpTo(run, ins, j, i);
      Drains(cfg, run, ins, j, i - 1);
      QuietAt(cfg, run, ins, i - 1);
    }
  }

  lemma QuietUpTo(run: seq<State>, ins: seq<Input>, j: nat, i: nat)
    requires |run| == |ins| + 1 && j <= i <= |ins| && QuietFrom(run, ins, j, i)
    ensures run[j].started && !run[j].walking
    ensures i > j ==> QuietFrom(run, ins, j, i - 1) && Quiet(run[i - 1], ins[i - 1])
  {
    hide Quiet;
  }

  lemma QuietAt(cfg: Config, run: seq<State>, ins: seq<Input>, i: nat)
    requires cfg.Valid() && IsRun(cfg, run, ins) && i < |ins| && |run| == |ins| + 1
    requires run[i].started && !run[i].walking && Quiet(run[i], ins[i])
    ensures cfg.Valid() && Fits(cfg, run[i]) && ValidInput(cfg, ins[i].ev, ins[i].report)
    ensures run[i + 1].started && !run[i + 1].walking
    ensures run[i].todo != {} ==> |run[i + 1].todo| + 1 == |run[i].todo|
    ensures run[i].todo == {} ==> run[i + 1].todo == {}
    ensures var out := Advance(cfg, run[i], ins[i].ev, ins[i].report, ins[i].pick).1;
      run[i].todo == {} && run[i + 1].waiting == {} ==> out.Finished?
  {
    hide *;
    TakenAt(cfg, run, ins, i);
    AlwaysAccounted(cfg, run, ins, i);
    InvCore(cfg, run[i]);
    InvFacts(cfg, run[i]);
    ExpectedFacts(run[i], ins[i].ev);
    TakesIs(cfg, run[i], ins[i], run[i + 1]);
    QuietStep(cfg, run[i], ins[i], run[i + 1]);
  }

  lemma TakesIs(cfg: Config, s: State, input: Input, next: State)
    requires Takes(cfg, s, input, next)
    ensures TakesAny(cfg, s, input, next)
  {
    hide TakesAny, Expected;
  }

  /** Over any run that nothing stops: once the walk is over and nothing new comes, each queued node has been asked
      after as many advances as there were, and the publish finishes on the advance by which every node asked has had
      its outcome. */
  lemma PublishFinishes(cfg: Config, run: seq<State>, ins: seq<Input>, j: nat, i: nat)
    requires cfg.Valid() && IsRun(cfg, run, ins) && j <= i < |ins| && |run| == |ins| + 1 && QuietFrom(run, ins, j, i + 1)
    requires i >= j + |run[j].todo| && Members(run[i].contacted) <= Stored(ins, i + 1) + Refused(ins, i + 1)
    ensures Fits(cfg, run[i]) && ValidInput(cfg, ins[i].ev, ins[i].report)
    ensures Advance(cfg, run[i], ins[i].ev, ins[i].report, ins[i].pick).1.Finished?
  {
    hide *;
    QuietUpTo(run, ins, j, i + 1);
    Drains(cfg, run, ins, j, i);
    assert run[i].todo == {};
    QuietAt(cfg, run, ins, i);
    AlwaysAccounted(cfg, run, ins, i + 1);
    SameAsked(cfg, run, ins, i);
    NoneWaits(run[i + 1], Stored(ins, i + 1), Refused(ins, i + 1));
  }

  lemma SameAsked(cfg: Config, run: seq<State>, ins: seq<Input>, i: nat)
    requires cfg.Valid() && IsRun(cfg, run, ins) && i < |ins| && |run| == |ins| + 1
    requires run[i].todo == {} && run[i].started && !run[i].walking && Quiet(run[i], ins[i])
    ensures run[i + 1].contacted == run[i].contacted
  {
    hide *;
    TakenAt(cfg, run, ins, i);
    AlwaysAccounted(cfg, run, ins, i);
    InvCore(cfg, run[i]);
    InvFacts(cfg, run[i]);
    ExpectedFacts(run[i], ins[i].ev);
    TakesIs(cfg, run[i], ins[i], run[i + 1]);
    QuietStep(cfg, run[i], ins[i], run[i + 1]);
    StoresOnce(cfg, run[i], ins[i].ev, ins[i].report, ins[i].pick);
  }

  lemma NoneWaits(s: State, stored: set<Bits>, refused: set<Bits>)
    requires Ledger(s, stored, refused) && Members(s.contacted) <= stored + refused
    ensures s.waiting == {}
  {
  }
}
