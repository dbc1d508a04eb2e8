/** What a finished lookup reports, and when a waiting one may sleep. */
module LookupResults {
  import opened Keys
  import opened Clock
  import opened Sequences
  import opened Lookup
  import opened LookupProofs

  ghost predicate Resolved(st: NodeState) {
    st.Succeeded? || st.Failed? || st.Unresponsive?
  }

  // ---------- The walk leaves nothing open behind it ----------

  /** Before the index a walk stops at, every node is resolved unless it is still within its deadline. */
  lemma ResolvedBefore(cfg: Config, now: Instant, s: State, j: nat, i: nat)
    requires cfg.Valid() && Fits(cfg.target, s.nodes) && i < j <= StopIndex(cfg, now, s, 0)
    ensures Resolved(Swept(now, s, j).nodes[i].state) || Weight(Outstanding(now), s.nodes[i]) == 1
  {
    assert !StopsAt(cfg, now, s, i);
  }

  // ---------- Reported nodes ----------

  lemma {:induction false} ReportableMembers(cfg: Config, nodes: seq<Node>, j: nat, k: Bits)
    requires cfg.Valid() && Fits(cfg.target, nodes) && j <= |nodes|
    ensures k in Reportable(cfg, nodes, j) <==>
      exists i :: 0 <= i < j && nodes[i].key == k && nodes[i].state.Succeeded? && (cfg.coverage ==> cfg.Inside(k))
  {
    if j > 0 {
      ReportableMembers(cfg, nodes, j - 1, k);
    }
  }

  /** Keys in strictly ascending distance, all nearer than the nodes from index j on. */
  ghost predicate KeysBefore(cfg: Config, nodes: seq<Node>, j: nat, r: seq<Bits>) {
    && (forall a :: 0 <= a < |r| ==> |r[a]| == |cfg.target|)
    && (forall a, b :: 0 <= a < b < |r| ==> Distance(r[a], cfg.target) < Distance(r[b], cfg.target))
    && (forall a, i :: 0 <= a < |r| && j <= i < |nodes| && |nodes[i].key| == |cfg.target| ==>
          Distance(r[a], cfg.target) < Distance(nodes[i].key, cfg.target))
  }

  lemma KeysBeforeSnoc(cfg: Config, nodes: seq<Node>, j: nat, q: seq<Bits>)
    requires cfg.Valid() && Ascending(cfg.target, nodes) && 0 < j <= |nodes| && KeysBefore(cfg, nodes, j - 1, q)
    ensures KeysBefore(cfg, nodes, j, q + [nodes[j - 1].key])
  {
    hide Distance;
    var r := q + [nodes[j - 1].key];
    forall a | 0 <= a < |r| ensures |r[a]| == |cfg.target| {
      assert a < |q| ==> r[a] == q[a];
    }
    forall a, b | 0 <= a < b < |r| ensures Distance(r[a], cfg.target) < Distance(r[b], cfg.target) {
      assert r[a] == q[a] && (b < |q| ==> r[b] == q[b]);
    }
    forall a, i | 0 <= a < |r| && j <= i < |nodes| ensures Distance(r[a], cfg.target) < Distance(nodes[i].key, cfg.target) {
      assert a < |q| ==> r[a] == q[a];
    }
  }

  lemma {:induction false} ReportableAscending(cfg: Config, nodes: seq<Node>, j: nat)
    requires cfg.Valid() && Ascending(cfg.target, nodes) && j <= |nodes|
    ensures KeysBefore(cfg, nodes, j, Reportable(cfg, nodes, j))
  {
    if j > 0 {
      ReportableAscending(cfg, nodes, j - 1);
      KeysBeforeSnoc(cfg, nodes, j, Reportable(cfg, nodes, j - 1));
    }
  }

  lemma {:induction false} ReportableCount(cfg: Config, nodes: seq<Node>, j: nat)
    requires cfg.Valid() && Fits(cfg.target, nodes) && j <= |nodes| && !cfg.coverage
    ensures |Reportable(cfg, nodes, j)| == Sum(Succeeds, nodes, j)
  {
    if j > 0 {
      ReportableCount(cfg, nodes, j - 1);
    }
  }

  lemma {:induction false} ReportablePrefix(cfg: Config, nodes: seq<Node>, i: nat, j: nat)
    requires cfg.Valid() && Fits(cfg.target, nodes) && i <= j <= |nodes|
    ensures Reportable(cfg, nodes, i) <= Reportable(cfg, nodes, j)
  {
    if i < j {
      ReportablePrefix(cfg, nodes, i, j - 1);
    }
  }

  /** r lists, nearest first, the min(n, successes) nearest nodes that succeeded. */
  ghost predicate NearestSucceeded(cfg: Config, nodes: seq<Node>, n: nat, r: seq<Bits>)
    requires cfg.Valid() && Fits(cfg.target, nodes)
  {
    && |r| == (if Sum(Succeeds, nodes, |nodes|) < n then Sum(Succeeds, nodes, |nodes|) else n)
    && (forall a :: 0 <= a < |r| ==> |r[a]| == |cfg.target| && Node(r[a], Succeeded) in nodes)
    && (forall a, b :: 0 <= a < b < |r| ==> Distance(r[a], cfg.target) < Distance(r[b], cfg.target))
    && (forall i :: 0 <= i < |nodes| && nodes[i].state.Succeeded? && nodes[i].key !in r ==>
          |r| == n && forall a :: 0 <= a < |r| ==> Distance(r[a], cfg.target) < Distance(nodes[i].key, cfg.target))
  }

  lemma ReportedSucceeded(cfg: Config, nodes: seq<Node>, k: Bits)
    requires cfg.Valid() && Fits(cfg.target, nodes) && k in Reportable(cfg, nodes, |nodes|)
    ensures Node(k, Succeeded) in nodes
  {
    ReportableMembers(cfg, nodes, |nodes|, k);
    var i :| 0 <= i < |nodes| && nodes[i].key == k && nodes[i].state.Succeeded?;
    assert nodes[i] == Node(k, Succeeded);
  }

  lemma ResultsNearest(cfg: Config, nodes: seq<Node>)
    requires cfg.Valid() && Ascending(cfg.target, nodes) && !cfg.coverage
    ensures NearestSucceeded(cfg, nodes, cfg.numResults, Results(cfg, nodes))
  {
    var r, all := Results(cfg, nodes), Reportable(cfg, nodes, |nodes|);
    ReportableCount(cfg, nodes, |nodes|);
    ReportableAscending(cfg, nodes, |nodes|);
    assert r == all[..|r|] && (|r| == |all| || |r| == cfg.numResults < |all|);
    forall a | 0 <= a < |r| ensures Node(r[a], Succeeded) in nodes {
      ReportedSucceeded(cfg, nodes, r[a]);
    }
    forall i | 0 <= i < |nodes| && nodes[i].state.Succeeded? && nodes[i].key !in r
      ensures |r| == cfg.numResults
      ensures forall a :: 0 <= a < |r| ==> Distance(r[a], cfg.target) < Distance(nodes[i].key, cfg.target)
    {
      hide Distance, Results, Reportable;
      UnreportedBeyond(cfg, nodes, i, |r|);
      assert [nodes[i]][0] == nodes[i];
    }
    hide Distance, Results, Reportable, Sum;
  }

  lemma UnreportedBeyond(cfg: Config, nodes: seq<Node>, i: nat, m: nat)
    requires cfg.Valid() && Ascending(cfg.target, nodes) && !cfg.coverage
    requires i < |nodes| && nodes[i].state.Succeeded? && m <= |Reportable(cfg, nodes, |nodes|)|
    requires nodes[i].key !in Reportable(cfg, nodes, |nodes|)[..m]
    ensures m < |Reportable(cfg, nodes, |nodes|)|
    ensures KeysBefore(cfg, [nodes[i]], 0, Reportable(cfg, nodes, |nodes|)[..m])
  {
    var all := Reportable(cfg, nodes, |nodes|);
    hide Distance, Reportable;
    ReportableMembers(cfg, nodes, |nodes|, nodes[i].key);
    ReportableAscending(cfg, nodes, |nodes|);
    var b :| 0 <= b < |all| && all[b] == nodes[i].key;
    assert forall c :: 0 <= c < m ==> all[..m][c] == all[c];
  }

  // ---------- Closest-nodes queries ----------

  /** Whether node n may still be open when r is reported: only when r is full and n is beyond all of it. */
  ghost predicate BeyondFull(cfg: Config, n: Node, r: seq<Bits>)
    requires cfg.Valid() && |n.key| == |cfg.target|
  {
    |r| == cfg.numResults && forall a :: 0 <= a < |r| ==> |r[a]| == |cfg.target| && Distance(r[a], cfg.target) < Distance(n.key, cfg.target)
  }

  /** A closest-nodes query that finishes by itself reports the nearest numResults of the nodes that
      succeeded, and left no known node open that is nearer than the last it reports; when it
      reports fewer than numResults, it left no known node open at all. */
  lemma ClosestCorrect(cfg: Config, s: State, now: Instant, ev: Event)
    requires Inv(cfg, s) && !s.finished && !ev.Cancel? && ValidEvent(cfg, ev) && !cfg.coverage
    requires Advance(cfg, s, now, ev).1.Finished?
    ensures var (s', out) := Advance(cfg, s, now, ev);
      && Fits(cfg.target, s'.nodes)
      && NearestSucceeded(cfg, s'.nodes, cfg.numResults, out.results)
      && (forall i :: 0 <= i < |s'.nodes| ==>
            Resolved(s'.nodes[i].state) || BeyondFull(cfg, s'.nodes[i], out.results))
  {
    RunningAdvance(cfg, s, now, ev);
    var a := Apply(cfg, s, ev);
    hide *;
    ClosestWalk(cfg, a, now);
  }

  lemma ClosestWalk(cfg: Config, a: State, now: Instant)
    requires Inv(cfg, a) && !a.finished && !cfg.coverage && Walk(cfg, now, a).1.Finished?
    ensures var (s', out) := Walk(cfg, now, a);
      && Fits(cfg.target, s'.nodes)
      && NearestSucceeded(cfg, s'.nodes, cfg.numResults, out.results)
      && (forall i :: 0 <= i < |s'.nodes| ==>
            Resolved(s'.nodes[i].state) || BeyondFull(cfg, s'.nodes[i], out.results))
  {
    var j, w := WalkCases(cfg, now, a);
    SweepKeepsInv(cfg, now, a, j, 0);
    ResultsNearest(cfg, w.nodes);
    var r := Results(cfg, w.nodes);
    assert Walk(cfg, now, a).1.results == r && Walk(cfg, now, a).0.nodes == w.nodes;
    assert Ascending(cfg.target, w.nodes);
    forall i | 0 <= i < |w.nodes|
      ensures Resolved(w.nodes[i].state) || BeyondFull(cfg, w.nodes[i], r)
    {
      hide *;
      if j == |a.nodes| {
        ExhaustedResolved(cfg, now, a, i);
      } else {
        OpenIsBeyond(cfg, now, a, j, i);
      }
    }
  }

  lemma StoppedAtSuccess(cfg: Config, now: Instant, a: State, j: nat)
    requires Inv(cfg, a) && !cfg.coverage && j == StopIndex(cfg, now, a, 0) < |a.nodes|
    requires Walk(cfg, now, a).1.Finished?
    ensures a.nodes[j].state.Succeeded? && Sum(Outstanding(now), a.nodes, j) == 0
    ensures Sum(Succeeds, a.nodes, j) + 1 >= cfg.numResults
  {
    assert StopsAt(cfg, now, a, j);
  }

  /** A walk that ends at a node that succeeded has counted enough successes up to it, so a node it
      leaves open lies beyond everything it reports. */
  lemma OpenIsBeyond(cfg: Config, now: Instant, a: State, j: nat, i: nat)
    requires Inv(cfg, a) && !cfg.coverage && j == StopIndex(cfg, now, a, 0) < |a.nodes| && i < |a.nodes|
    requires Walk(cfg, now, a).1.Finished?
    ensures var w := Swept(now, a, j);
      && Ascending(cfg.target, w.nodes)
      && (Resolved(w.nodes[i].state) || BeyondFull(cfg, w.nodes[i], Results(cfg, w.nodes)))
  {
    StoppedAtSuccess(cfg, now, a, j);
    SweepKeepsInv(cfg, now, a, j, 0);
    var w := Swept(now, a, j);
    assert Ascending(cfg.target, w.nodes) && |w.nodes| == |a.nodes| && w.nodes[j] == a.nodes[j];
    hide *;
    if i < j {
      ResolvedBefore(cfg, now, a, j, i);
      SumZero(Outstanding(now), a.nodes, j, i);
    } else if i == j {
      SuccessIsResolved(w.nodes[j].state);
    } else {
      FullAfter(cfg, now, a, j);
      FullBy(cfg, w.nodes, j + 1, i);
    }
  }

  lemma SuccessIsResolved(st: NodeState)
    requires st.Succeeded?
    ensures Resolved(st)
  {
  }

  lemma FullAfter(cfg: Config, now: Instant, a: State, j: nat)
    requires j < |a.nodes| && a.nodes[j].state.Succeeded? && Sum(Succeeds, a.nodes, j) + 1 >= cfg.numResults
    ensures Sum(Succeeds, Swept(now, a, j).nodes, j + 1) >= cfg.numResults
  {
    SumExpire(now, a.nodes, j, j + 1);
  }

  lemma FullBy(cfg: Config, nodes: seq<Node>, j: nat, i: nat)
    requires cfg.Valid() && Ascending(cfg.target, nodes) && !cfg.coverage
    requires j <= i < |nodes| && Sum(Succeeds, nodes, j) >= cfg.numResults
    ensures BeyondFull(cfg, nodes[i], Results(cfg, nodes))
  {
    ReportableCount(cfg, nodes, j);
    ReportablePrefix(cfg, nodes, j, |nodes|);
    ReportableAscending(cfg, nodes, j);
    var few, r := Reportable(cfg, nodes, j), Results(cfg, nodes);
    assert r == few[..cfg.numResults];
  }

  /** A walk that runs to the end with nothing in flight has resolved every known node. */
  lemma ExhaustedResolved(cfg: Config, now: Instant, a: State, i: nat)
    requires Inv(cfg, a) && StopIndex(cfg, now, a, 0) == |a.nodes| && i < |a.nodes|
    requires Walk(cfg, now, a).1.Finished?
    ensures Resolved(Swept(now, a, |a.nodes|).nodes[i].state)
  {
    var n := |a.nodes|;
    var w := Swept(now, a, n);
    ResolvedBefore(cfg, now, a, n, i);
    SumExpire(now, a.nodes, n, n);
    assert Sum(Waits, w.nodes, n) == 0;
    SumZero(Waits, w.nodes, n, i);
  }

  // ---------- Whom the walk asks ----------

  /** The node asked was waiting to be asked, and is nearer than any node still waiting to be. */
  lemma AsksNearest(cfg: Config, s: State, now: Instant, ev: Event)
    requires Inv(cfg, s) && !s.finished && !ev.Cancel? && ValidEvent(cfg, ev) && Advance(cfg, s, now, ev).1.Dispatches()
    ensures var (s', out) := Advance(cfg, s, now, ev);
      && Fits(cfg.target, s'.nodes) && |out.node| == |cfg.target|
      && Node(out.node, NotContacted) in Apply(cfg, s, ev).nodes
      && Node(out.node, Waiting(now + cfg.requestTimeout)) in s'.nodes
      && forall i :: 0 <= i < |s'.nodes| && s'.nodes[i].state.NotContacted? ==>
           Distance(out.node, cfg.target) < Distance(s'.nodes[i].key, cfg.target)
  {
    RunningAdvance(cfg, s, now, ev);
    var a := Apply(cfg, s, ev);
    hide *;
    WalkAsksNearest(cfg, a, now);
  }

  lemma WalkAsksNearest(cfg: Config, a: State, now: Instant)
    requires Inv(cfg, a) && cfg.Valid() && Fits(cfg.target, a.nodes) && Walk(cfg, now, a).1.Dispatches()
    ensures var (s', out) := Walk(cfg, now, a);
      && Fits(cfg.target, s'.nodes) && |out.node| == |cfg.target|
      && Node(out.node, NotContacted) in a.nodes
      && Node(out.node, Waiting(now + cfg.requestTimeout)) in s'.nodes
      && forall i :: 0 <= i < |s'.nodes| && s'.nodes[i].state.NotContacted? ==>
           Distance(out.node, cfg.target) < Distance(s'.nodes[i].key, cfg.target)
  {
    var j, w := WalkCases(cfg, now, a);
    SweepKeepsInv(cfg, now, a, j, 0);
    hide Walk, StopIndex, Distance, InFlightAt, RegionExhausted;
    var s' := Walk(cfg, now, a).0;
    assert s' == Dispatched(cfg, now, w, j);
    assert s'.nodes[j] == Node(w.nodes[j].key, Waiting(now + cfg.requestTimeout));
    assert a.nodes[j] == w.nodes[j];
    forall i | 0 <= i < |s'.nodes| && s'.nodes[i].state.NotContacted?
      ensures Distance(s'.nodes[j].key, cfg.target) < Distance(s'.nodes[i].key, cfg.target)
    {
      hide *;
      OpenLiesBeyond(cfg, now, a, j, i);
      Apart(cfg, w.nodes, j, i);
    }
  }

  lemma OpenLiesBeyond(cfg: Config, now: Instant, a: State, j: nat, i: nat)
    requires cfg.Valid() && Fits(cfg.target, a.nodes) && j == StopIndex(cfg, now, a, 0) && i < |a.nodes|
    requires Swept(now, a, j).nodes[i].state.NotContacted?
    ensures i >= j
  {
    if i < j {
      ResolvedBefore(cfg, now, a, j, i);
    }
  }

  lemma Apart(cfg: Config, nodes: seq<Node>, j: nat, i: nat)
    requires Ascending(cfg.target, nodes) && j < i < |nodes|
    ensures Fits(cfg.target, nodes) && Distance(nodes[j].key, cfg.target) < Distance(nodes[i].key, cfg.target)
  {
  }

  /** Nobody is reported twice. */
  lemma ReportedDistinct(cfg: Config, s: State, now: Instant, ev: Event)
    requires Inv(cfg, s) && !s.finished && !ev.Cancel? && ValidEvent(cfg, ev) && Advance(cfg, s, now, ev).1.Finished?
    ensures Distinct(Advance(cfg, s, now, ev).1.results)
  {
    RunningAdvance(cfg, s, now, ev);
    var a := Apply(cfg, s, ev);
    var j, w := WalkCases(cfg, now, a);
    SweepKeepsInv(cfg, now, a, j, 0);
    assert Ascending(cfg.target, w.nodes);
    assert Walk(cfg, now, a).1.results == Results(cfg, w.nodes);
    hide *;
    ResultsDistinct(cfg, w.nodes);
  }

  lemma ResultsDistinct(cfg: Config, nodes: seq<Node>)
    requires cfg.Valid() && Ascending(cfg.target, nodes)
    ensures Fits(cfg.target, nodes) && Distinct(Results(cfg, nodes))
  {
    ReportableAscending(cfg, nodes, |nodes|);
    var all := Reportable(cfg, nodes, |nodes|);
    assert forall a, b :: 0 <= a < b < |all| ==> Distance(all[a], cfg.target) < Distance(all[b], cfg.target);
    hide Distance, Reportable, Ascending, Fits;
  }

  // ---------- Coverage queries ----------

  /** A coverage query that finishes by itself reports exactly the nodes of the region that succeeded,
      and has resolved every node of the region it has heard of. */
  lemma CoverageComplete(cfg: Config, s: State, now: Instant, ev: Event, region: Bits)
    requires Inv(cfg, s) && !s.finished && !ev.Cancel? && ValidEvent(cfg, ev) && cfg.coverage
    requires HasPrefix(cfg.target, region) && |region| == cfg.prefixLen
    requires Advance(cfg, s, now, ev).1.Finished?
    ensures var (s', out) := Advance(cfg, s, now, ev);
      && (forall k :: k in out.results <==> HasPrefix(k, region) && Node(k, Succeeded) in s'.nodes)
      && (forall n :: n in s'.nodes && HasPrefix(n.key, region) ==> Resolved(n.state))
  {
    RunningAdvance(cfg, s, now, ev);
    var a := Apply(cfg, s, ev);
    hide *;
    CoverageWalk(cfg, a, now, region);
  }

  lemma CoverageWalk(cfg: Config, a: State, now: Instant, region: Bits)
    requires Inv(cfg, a) && !a.finished && cfg.coverage && Walk(cfg, now, a).1.Finished?
    requires HasPrefix(cfg.target, region) && |region| == cfg.prefixLen
    ensures var (s', out) := Walk(cfg, now, a);
      && (forall k :: k in out.results <==> HasPrefix(k, region) && Node(k, Succeeded) in s'.nodes)
      && (forall n :: n in s'.nodes && HasPrefix(n.key, region) ==> Resolved(n.state))
  {
    var j, w := WalkCases(cfg, now, a);
    SweepKeepsInv(cfg, now, a, j, 0);
    var r := Results(cfg, w.nodes);
    assert Walk(cfg, now, a).1.results == r && Walk(cfg, now, a).0.nodes == w.nodes;
    hide *;
    forall k
      ensures k in r <==> HasPrefix(k, region) && Node(k, Succeeded) in w.nodes
    {
      ReportedInRegion(cfg, w.nodes, region, k);
    }
    forall n | n in w.nodes && HasPrefix(n.key, region)
      ensures Resolved(n.state)
    {
      var i :| 0 <= i < |w.nodes| && w.nodes[i] == n;
      if j == |a.nodes| {
        ExhaustedResolved(cfg, now, a, i);
      } else {
        InsideResolved(cfg, now, a, j, i, region);
      }
    }
  }

  /** The walk stopped at a node outside the region, and the region precedes it. */
  lemma InsideResolved(cfg: Config, now: Instant, a: State, j: nat, i: nat, region: Bits)
    requires Inv(cfg, a) && cfg.coverage && j == StopIndex(cfg, now, a, 0) < |a.nodes| && i < |a.nodes|
    requires HasPrefix(cfg.target, region) && |region| == cfg.prefixLen && HasPrefix(a.nodes[i].key, region)
    requires Walk(cfg, now, a).1.Finished?
    ensures Resolved(Swept(now, a, j).nodes[i].state)
  {
    StoppedAtBoundary(cfg, now, a, j);
    KeysFit(cfg, a, j);
    KeysFit(cfg, a, i);
    hide *;
    SharedPrefixIsRegion(cfg.target, a.nodes[i].key, region);
    RegionPrecedesRest(cfg.target, cfg.prefixLen, a.nodes[i].key, a.nodes[j].key);
    NearerFirst(cfg.target, a.nodes, i, j);
    ResolvedBefore(cfg, now, a, j, i);
    SumZero(Outstanding(now), a.nodes, j, i);
  }

  lemma KeysFit(cfg: Config, a: State, i: nat)
    requires Inv(cfg, a) && i < |a.nodes|
    ensures cfg.Valid() && Ascending(cfg.target, a.nodes) && Fits(cfg.target, a.nodes) && |a.nodes[i].key| == |cfg.target|
    ensures cfg.coverage ==> (cfg.Inside(a.nodes[i].key) <==> CommonPrefixLength(a.nodes[i].key, cfg.target) >= cfg.prefixLen)
    ensures cfg.coverage ==> cfg.prefixLen <= |cfg.target|
  {
    hide Distance, CommonPrefixLength, Balanced;
  }

  lemma NearerFirst(t: Bits, nodes: seq<Node>, i: nat, j: nat)
    requires Ascending(t, nodes) && i < |nodes| && j < |nodes| && |nodes[i].key| == |nodes[j].key| == |t|
    requires Distance(nodes[i].key, t) < Distance(nodes[j].key, t)
    ensures i < j
  {
    hide Distance;
  }

  lemma ReportedInRegion(cfg: Config, nodes: seq<Node>, region: Bits, k: Bits)
    requires cfg.Valid() && Fits(cfg.target, nodes) && cfg.coverage
    requires HasPrefix(cfg.target, region) && |region| == cfg.prefixLen
    ensures k in Results(cfg, nodes) <==> HasPrefix(k, region) && Node(k, Succeeded) in nodes
  {
    ReportableMembers(cfg, nodes, |nodes|, k);
    if |k| == |cfg.target| {
      SharedPrefixIsRegion(cfg.target, k, region);
    }
    if Node(k, Succeeded) in nodes {
      var i :| 0 <= i < |nodes| && nodes[i] == Node(k, Succeeded);
      assert |nodes[i].key| == |cfg.target|;
    }
    if k in Results(cfg, nodes) {
      var i :| 0 <= i < |nodes| && nodes[i].key == k && nodes[i].state.Succeeded? && cfg.Inside(k);
      assert nodes[i] == Node(k, Succeeded);
    }
  }

  lemma StoppedAtBoundary(cfg: Config, now: Instant, a: State, j: nat)
    requires Inv(cfg, a) && cfg.coverage && j == StopIndex(cfg, now, a, 0) < |a.nodes|
    requires Walk(cfg, now, a).1.Finished?
    ensures a.nodes[j].state.NotContacted? && !cfg.Inside(a.nodes[j].key)
    ensures Sum(Outstanding(now), a.nodes, j) == 0
  {
    assert StopsAt(cfg, now, a, j);
  }

  // ---------- Sleeping ----------

  /** The recorded wake-up time is the least deadline of the nodes waited for, and zero only if there are none. */
  lemma {:induction false} EarliestIsLeast(nodes: seq<Node>, j: nat)
    requires j <= |nodes|
    requires forall i :: 0 <= i < j && nodes[i].state.Waiting? ==> nodes[i].state.deadline > 0
    ensures var e := EarliestDeadline(nodes, j);
      && (forall i :: 0 <= i < j && nodes[i].state.Waiting? ==> 0 < e <= nodes[i].state.deadline)
      && (e > 0 ==> exists i :: 0 <= i < j && nodes[i].state == Waiting(e))
  {
    if j > 0 {
      EarliestIsLeast(nodes, j - 1);
      var e := EarliestDeadline(nodes, j - 1);
      if e > 0 {
        var i :| 0 <= i < j - 1 && nodes[i].state == Waiting(e);
      }
      if EarliestDeadline(nodes, j) != e {
        assert nodes[j - 1].state == Waiting(EarliestDeadline(nodes, j));
      }
    }
  }

  /** due is the least deadline of the nodes waited for, of which there are some. */
  ghost predicate LeastDeadline(nodes: seq<Node>, due: Instant) {
    && (exists i :: 0 <= i < |nodes| && nodes[i].state == Waiting(due))
    && (forall i :: 0 <= i < |nodes| && nodes[i].state.Waiting? ==> due <= nodes[i].state.deadline)
  }

  /** After either waiting report, NextDue is the least deadline of the nodes waited for, and a poll
      at any time up to it changes nothing and reports the same. */
  lemma SleepIsSafe(cfg: Config, s: State, now: Instant, ev: Event, t: Instant)
    requires Inv(cfg, s) && now > 0 && ValidEvent(cfg, ev)
    requires Advance(cfg, s, now, ev).1.Waits()
    requires t <= Advance(cfg, s, now, ev).1.nextDue
    ensures var (s', out) := Advance(cfg, s, now, ev);
      && LeastDeadline(s'.nodes, out.nextDue)
      && Ascending(cfg.target, s'.nodes)
      && Advance(cfg, s', t, Poll) == (s', out)
  {
    RunningAdvance(cfg, s, now, ev);
    var a := Apply(cfg, s, ev);
    hide *;
    WalkSleeps(cfg, a, now, t);
    PollWalks(cfg, Walk(cfg, now, a).0, t);
  }

  lemma PollWalks(cfg: Config, s: State, t: Instant)
    requires cfg.Valid() && Ascending(cfg.target, s.nodes) && !s.finished
    ensures Advance(cfg, s, t, Poll) == Walk(cfg, t, s)
  {
  }

  lemma WalkSleeps(cfg: Config, a: State, now: Instant, t: Instant)
    requires Inv(cfg, a) && !a.finished && now > 0 && Walk(cfg, now, a).1.Waits()
    requires t <= Walk(cfg, now, a).1.nextDue
    ensures var (s', out) := Walk(cfg, now, a);
      && LeastDeadline(s'.nodes, out.nextDue)
      && Ascending(cfg.target, s'.nodes) && !s'.finished
      && Walk(cfg, t, s') == (s', out)
  {
    var j, w := WalkCases(cfg, now, a);
    SweepKeepsInv(cfg, now, a, j, 0);
    var s' := w.(nextDue := EarliestDeadline(w.nodes, |w.nodes|));
    WaitsForSome(cfg, now, a, j);
    assert Ascending(cfg.target, s'.nodes) && !s'.finished;
    hide Walk, StopIndex, Swept, Distance, EarliestDeadline, Ascending;
    LeastRecorded(cfg, w);
    assert forall i :: 0 <= i < |s'.nodes| ==> !Expired(t, s'.nodes[i].state);
    SettledWalk(cfg, a, now, s', t);
  }

  lemma WaitsForSome(cfg: Config, now: Instant, a: State, j: nat)
    requires Inv(cfg, a) && Walk(cfg, now, a).1.Waits() && j == StopIndex(cfg, now, a, 0)
    ensures Swept(now, a, j).inFlight > 0
  {
    if j < |a.nodes| {
      assert StopsAt(cfg, now, a, j);
    }
  }

  lemma LeastRecorded(cfg: Config, w: State)
    requires Inv(cfg, w) && w.inFlight > 0
    ensures LeastDeadline(w.nodes, EarliestDeadline(w.nodes, |w.nodes|))
  {
    var n := |w.nodes|;
    assert forall i :: 0 <= i < n && w.nodes[i].state.Waiting? ==> w.nodes[i] in w.nodes;
    EarliestIsLeast(w.nodes, n);
    var x := SumPositive(Waits, w.nodes, n);
  }

  /** Walking again over a state that waits, before anything in it expires, changes nothing. */
  lemma SettledWalk(cfg: Config, a: State, now: Instant, s': State, t: Instant)
    requires Inv(cfg, a) && Walk(cfg, now, a).1.Waits() && s' == Walk(cfg, now, a).0
    requires Fits(cfg.target, s'.nodes)
    requires forall i :: 0 <= i < |s'.nodes| ==> !Expired(t, s'.nodes[i].state)
    ensures Walk(cfg, t, s') == (s', Walk(cfg, now, a).1)
  {
    var j, w := WalkCases(cfg, now, a);
    StillStops(cfg, a, now, s', t);
    var j', w' := WalkCases(cfg, t, s');
    hide StopIndex, Walk, Swept, GoodNodes, Balanced;
    NoneExpiring(t, s'.nodes, j);
    NothingSwept(t, s', j);
    assert w' == s';
  }

  lemma NothingSwept(t: Instant, s: State, j: nat)
    requires j <= |s.nodes| && Sum(Expiring(t), s.nodes, j) == 0
    ensures Swept(t, s, j) == s
  {
    NoneExpires(t, s.nodes, j);
  }

  lemma {:induction false} NoneExpiring(t: Instant, nodes: seq<Node>, j: nat)
    requires j <= |nodes| && forall i :: 0 <= i < j ==> !Expired(t, nodes[i].state)
    ensures Sum(Expiring(t), nodes, j) == 0
    ensures Sum(Outstanding(t), nodes, j) == Sum(Waits, nodes, j)
  {
    if j > 0 {
      NoneExpiring(t, nodes, j - 1);
    }
  }

  /** Nodes still outstanding at a walk are the ones waited for after it. */
  lemma {:induction false} OutstandingSurvive(cfg: Config, now: Instant, nodes: seq<Node>, j: nat, i: nat)
    requires i <= j <= |nodes|
    ensures Sum(Waits, Expire(now, nodes, j), i) == Sum(Outstanding(now), nodes, i)
  {
    if i > 0 {
      OutstandingSurvive(cfg, now, nodes, j, i - 1);
    }
  }

  /** What the walk counted at index k, it counts again when polled before anything expires. */
  lemma TalliesAgree(cfg: Config, now: Instant, a: State, j: nat, s': State, t: Instant, k: nat)
    requires k <= j <= |a.nodes| && s'.nodes == Expire(now, a.nodes, j)
    requires forall i :: 0 <= i < |s'.nodes| ==> !Expired(t, s'.nodes[i].state)
    ensures Sum(Outstanding(t), s'.nodes, k) == Sum(Outstanding(now), a.nodes, k)
    ensures Sum(Succeeds, s'.nodes, k) == Sum(Succeeds, a.nodes, k)
    ensures Sum(Enters(cfg), s'.nodes, k) == Sum(Enters(cfg), a.nodes, k)
    ensures Sum(Expiring(t), s'.nodes, k) == 0
  {
    NoneExpiring(t, s'.nodes, k);
    OutstandingSurvive(cfg, now, a.nodes, j, k);
    SumExpire(now, a.nodes, j, k);
    SumExpireEnters(cfg, now, a.nodes, j, k);
  }

  /** A poll of a settled state stops where the walk that settled it stopped. */
  lemma SameStop(cfg: Config, a: State, now: Instant, s': State, t: Instant, k: nat)
    requires Inv(cfg, a) && Fits(cfg.target, s'.nodes)
    requires k <= StopIndex(cfg, now, a, 0) && k < |a.nodes|
    requires var j := StopIndex(cfg, now, a, 0);
      s'.nodes == Expire(now, a.nodes, j) && s'.inFlight == InFlightAt(now, a, j)
    requires forall i :: 0 <= i < |s'.nodes| ==> !Expired(t, s'.nodes[i].state)
    ensures StopsAt(cfg, t, s', k) == StopsAt(cfg, now, a, k)
    ensures RegionExhausted(cfg, t, s', k) == RegionExhausted(cfg, now, a, k)
  {
    var j := StopIndex(cfg, now, a, 0);
    assert !StopsAt(cfg, now, a, k) || k == j;
    hide Sum, CommonPrefixLength, Distance, StopIndex, GoodNodes, Balanced;
    TalliesAgree(cfg, now, a, j, s', t, k);
    SumMonotone(Expiring(now), a.nodes, k, j);
  }

  lemma StillStops(cfg: Config, a: State, now: Instant, s': State, t: Instant)
    requires Inv(cfg, a) && Walk(cfg, now, a).1.Waits() && s' == Walk(cfg, now, a).0
    requires Fits(cfg.target, s'.nodes)
    requires forall i :: 0 <= i < |s'.nodes| ==> !Expired(t, s'.nodes[i].state)
    ensures StopIndex(cfg, t, s', 0) == StopIndex(cfg, now, a, 0)
    ensures Walk(cfg, t, s').1.Waits() && Walk(cfg, t, s').1.WaitingAtCapacity? == Walk(cfg, now, a).1.WaitingAtCapacity?
  {
    var j, w := WalkCases(cfg, now, a);
    forall k | 0 <= k <= j && k < |a.nodes|
      ensures StopsAt(cfg, t, s', k) == StopsAt(cfg, now, a, k)
      ensures RegionExhausted(cfg, t, s', k) == RegionExhausted(cfg, now, a, k)
    {
      SameStop(cfg, a, now, s', t, k);
    }
    NoneExpiring(t, s'.nodes, j);
    hide RegionExhausted, StopsAt, Sum, GoodNodes;
  }

}
