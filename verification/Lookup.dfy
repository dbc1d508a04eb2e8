/** What one iterative lookup does: its state, and the state and report each event leads to.

    Nodes are kept in ascending distance from the target. An advance walks them from the nearest
    outward and stops at the first index where `StopsAt` holds; everything the walk decides is
    stated here by counting over the nodes before that index, not by replaying the walk. */
module Lookup {
  import opened Keys
  import opened Clock

  datatype NodeState = NotContacted | Waiting(deadline: Instant) | Unresponsive | Failed | Succeeded

  datatype Node = Node(key: Bits, state: NodeState)

  datatype Stats = Stats(start: Instant, end: Instant, requests: int, success: int, failure: int)

  datatype Config = Config(
    self: Bits, target: Bits, findCloser: bool, coverage: bool, prefixLen: nat,
    concurrency: nat, numResults: nat, requestTimeout: nat, timeout: nat)
  {
    predicate Valid() {
      && |self| == |target|
      && prefixLen <= |target|
      && concurrency >= 1 && numResults >= 1 && requestTimeout >= 1 && timeout >= 1
    }

    predicate Inside(k: Bits)
      requires |k| == |target|
    {
      CommonPrefixLength(k, target) >= prefixLen
    }
  }

  datatype State = State(
    nodes: seq<Node>, inFlight: int, stats: Stats, finished: bool,
    deadline: Instant, nextDue: Instant, results: seq<Bits>)

  datatype Event = Cancel | Response(node: Bits, closer: seq<Bits>) | Failure(node: Bits) | Poll

  datatype Outcome =
    | Finished(results: seq<Bits>, stats: Stats)
    | AskCloser(node: Bits, stats: Stats)
    | SendMessage(node: Bits, stats: Stats)
    | WaitingAtCapacity(stats: Stats, deadline: Instant, nextDue: Instant)
    | WaitingWithCapacity(stats: Stats, deadline: Instant, nextDue: Instant)
  {
    predicate Dispatches() {
      AskCloser? || SendMessage?
    }

    predicate Waits() {
      WaitingAtCapacity? || WaitingWithCapacity?
    }
  }

  // ---------- Nodes in order ----------

  predicate Fits(t: Bits, nodes: seq<Node>) {
    forall i :: 0 <= i < |nodes| ==> |nodes[i].key| == |t|
  }

  /** Nodes lie in strictly ascending distance from t, so no key occurs twice. */
  predicate Ascending(t: Bits, nodes: seq<Node>) {
    && Fits(t, nodes)
    && forall i, j {:trigger Distance(nodes[i].key, t), Distance(nodes[j].key, t)} ::
         0 <= i < j < |nodes| ==> Distance(nodes[i].key, t) < Distance(nodes[j].key, t)
  }

  predicate Knows(nodes: seq<Node>, k: Bits) {
    exists i :: 0 <= i < |nodes| && nodes[i].key == k
  }

  /** The index of k among the nodes, or the number of nodes when k is not among them. */
  function IndexOf(nodes: seq<Node>, k: Bits): (i: nat)
    ensures i <= |nodes|
    ensures i < |nodes| ==> nodes[i].key == k
    ensures forall j :: 0 <= j < i ==> nodes[j].key != k
  {
    if |nodes| == 0 || nodes[0].key == k then 0 else 1 + IndexOf(nodes[1..], k)
  }

  /** A newly heard-of node takes its place by distance; a key already known keeps its entry. */
  function Insert(t: Bits, nodes: seq<Node>, k: Bits): (r: seq<Node>)
    requires Fits(t, nodes) && |k| == |t|
  {
    if |nodes| == 0 then [Node(k, NotContacted)] else
    var last := nodes[|nodes| - 1];
    if last.key == k then nodes
    else if Distance(last.key, t) < Distance(k, t) then nodes + [Node(k, NotContacted)]
    else Insert(t, nodes[..|nodes| - 1], k) + [last]
  }

  /** Adding nodes one by one, leaving out self. */
  function InsertAll(cfg: Config, nodes: seq<Node>, keys: seq<Bits>): (r: seq<Node>)
    requires cfg.Valid() && Ascending(cfg.target, nodes)
    requires forall i :: 0 <= i < |keys| ==> |keys[i]| == |cfg.target|
    ensures Ascending(cfg.target, r)
    decreases |keys|
  {
    if |keys| == 0 then nodes else
    var rest := InsertAll(cfg, nodes, keys[..|keys| - 1]);
    var k := keys[|keys| - 1];
    if k == cfg.self then rest else
      InsertAscending(cfg.target, rest, k);
      Insert(cfg.target, rest, k)
  }

  /** Inserting adds one uncontacted entry for an unknown key and leaves every other entry alone. */
  lemma {:induction false} InsertMembers(t: Bits, nodes: seq<Node>, k: Bits, n: Node)
    requires Ascending(t, nodes) && |k| == |t|
    ensures n in Insert(t, nodes, k) <==> n in nodes || (n == Node(k, NotContacted) && !Knows(nodes, k))
    decreases |nodes|
  {
    if |nodes| > 0 {
      var m := |nodes| - 1;
      var front, last := nodes[..m], nodes[m];
      assert nodes == front + [last];
      if last.key == k {
        assert Knows(nodes, k);
      } else if Distance(last.key, t) < Distance(k, t) {
        assert !Knows(nodes, k);
      } else {
        InsertMembers(t, front, k, n);
        KnowsFront(nodes, k);
      }
    }
  }

  lemma KnowsFront(nodes: seq<Node>, k: Bits)
    requires |nodes| > 0 && nodes[|nodes| - 1].key != k
    ensures Knows(nodes, k) <==> Knows(nodes[..|nodes| - 1], k)
  {
    var front := nodes[..|nodes| - 1];
    if Knows(nodes, k) {
      var i :| 0 <= i < |nodes| && nodes[i].key == k;
      assert front[i].key == k;
    }
    if Knows(front, k) {
      var i :| 0 <= i < |front| && front[i].key == k;
      assert nodes[i].key == k;
    }
  }

  lemma {:induction false} InsertAscending(t: Bits, nodes: seq<Node>, k: Bits)
    requires Ascending(t, nodes) && |k| == |t|
    ensures Ascending(t, Insert(t, nodes, k))
    decreases |nodes|
  {
    if |nodes| > 0 {
      var m := |nodes| - 1;
      var front, last := nodes[..m], nodes[m];
      if last.key == k {
      } else if Distance(last.key, t) < Distance(k, t) {
        AscendingSnoc(t, nodes, Node(k, NotContacted));
      } else {
        if Distance(last.key, t) == Distance(k, t) {
          DistanceInjective(t, last.key, k);
        }
        InsertAscending(t, front, k);
        var r := Insert(t, front, k);
        if |r| > 0 {
          InsertMembers(t, front, k, r[|r| - 1]);
        }
        AscendingSnoc(t, r, last);
      }
    }
  }

  lemma AscendingSnoc(t: Bits, nodes: seq<Node>, n: Node)
    requires Ascending(t, nodes) && |n.key| == |t|
    requires |nodes| > 0 ==> Distance(nodes[|nodes| - 1].key, t) < Distance(n.key, t)
    ensures Ascending(t, nodes + [n])
  {
    hide Distance;
    var r := nodes + [n];
    assert forall i :: 0 <= i < |nodes| ==> r[i] == nodes[i];
    forall i, j | 0 <= i < j < |r|
      ensures Distance(r[i].key, t) < Distance(r[j].key, t)
    {
      if j == |nodes| && i < j - 1 {
        assert Distance(nodes[i].key, t) < Distance(nodes[j - 1].key, t);
      }
    }
  }

  // ---------- Counting over the nodes before an index ----------

  datatype Tally = Expiring(now: Instant) | Outstanding(now: Instant) | Waits | Succeeds | Enters(cfg: Config) | Rank

  predicate Expired(now: Instant, st: NodeState) {
    st.Waiting? && now > st.deadline
  }

  /** What one node adds to a tally. Rank is how many more times its state can change. */
  function Weight(w: Tally, n: Node): nat {
    match w
    case Expiring(now) => if Expired(now, n.state) then 1 else 0
    case Outstanding(now) => if n.state.Waiting? && !Expired(now, n.state) then 1 else 0
    case Waits => if n.state.Waiting? then 1 else 0
    case Succeeds => if n.state.Succeeded? then 1 else 0
    case Enters(cfg) => if n.state.Succeeded? && |n.key| == |cfg.target| && cfg.Inside(n.key) then 1 else 0
    case Rank =>
      match n.state
      case NotContacted => 3
      case Waiting(_) => 2
      case Unresponsive => 1
      case _ => 0
  }

  function Sum(w: Tally, nodes: seq<Node>, j: nat): nat
    requires j <= |nodes|
  {
    if j == 0 then 0 else Sum(w, nodes, j - 1) + Weight(w, nodes[j - 1])
  }

  // ---------- The walk ----------

  /** The requests still out when the walk reaches index j, having expired those before it. */
  function InFlightAt(now: Instant, s: State, j: nat): int
    requires j <= |s.nodes|
  {
    s.inFlight - Sum(Expiring(now), s.nodes, j)
  }

  /** At a node outside the region with nothing nearer outstanding, a coverage walk is exhausted
      once it has found a member, or has contacted enough nodes without one. */
  predicate RegionExhausted(cfg: Config, now: Instant, s: State, j: nat)
    requires cfg.Valid() && Fits(cfg.target, s.nodes) && j < |s.nodes|
  {
    && cfg.coverage
    && !cfg.Inside(s.nodes[j].key)
    && Sum(Outstanding(now), s.nodes, j) == 0
    && (Sum(Enters(cfg), s.nodes, j) > 0 || Sum(Succeeds, s.nodes, j) >= cfg.numResults)
  }

  predicate StopsAt(cfg: Config, now: Instant, s: State, j: nat)
    requires cfg.Valid() && Fits(cfg.target, s.nodes) && j < |s.nodes|
  {
    match s.nodes[j].state
    case NotContacted => true
    case Waiting(d) => now <= d && InFlightAt(now, s, j) >= cfg.concurrency
    case Succeeded =>
      && !cfg.coverage
      && Sum(Outstanding(now), s.nodes, j) == 0
      && Sum(Succeeds, s.nodes, j) + 1 >= cfg.numResults
    case _ => false
  }

  /** The first index from j at which the walk stops, or the number of nodes when it runs to the end. */
  function StopIndex(cfg: Config, now: Instant, s: State, j: nat): (i: nat)
    requires cfg.Valid() && Fits(cfg.target, s.nodes) && j <= |s.nodes|
    ensures j <= i <= |s.nodes|
    ensures forall k :: j <= k < i ==> !StopsAt(cfg, now, s, k)
    ensures i < |s.nodes| ==> StopsAt(cfg, now, s, i)
    decreases |s.nodes| - j
  {
    if j == |s.nodes| || StopsAt(cfg, now, s, j) then j else StopIndex(cfg, now, s, j + 1)
  }

  function ExpireNode(now: Instant, n: Node): Node {
    if Expired(now, n.state) then n.(state := Unresponsive) else n
  }

  /** Nodes before index j whose deadline has passed become unresponsive. */
  function Expire(now: Instant, nodes: seq<Node>, j: nat): (r: seq<Node>)
    requires j <= |nodes|
    ensures |r| == |nodes|
    ensures forall k :: 0 <= k < j ==> r[k] == ExpireNode(now, nodes[k])
    ensures forall k :: j <= k < |nodes| ==> r[k] == nodes[k]
  {
    seq(|nodes|, k requires 0 <= k < |nodes| => if k < j then ExpireNode(now, nodes[k]) else nodes[k])
  }

  /** The state after the nodes before index j have been walked over. */
  function Swept(now: Instant, s: State, j: nat): State
    requires j <= |s.nodes|
  {
    s.(nodes := Expire(now, s.nodes, j),
       inFlight := InFlightAt(now, s, j),
       stats := s.stats.(failure := s.stats.failure + Sum(Expiring(now), s.nodes, j)))
  }

  /** A request goes out to the node at index j. The first request starts the query's own deadline. */
  function Dispatched(cfg: Config, now: Instant, s: State, j: nat): State
    requires j < |s.nodes|
  {
    var first := s.stats.start == 0;
    var stats := s.stats.(requests := s.stats.requests + 1, start := if first then now else s.stats.start);
    s.(nodes := s.nodes[j := s.nodes[j].(state := Waiting(now + cfg.requestTimeout))],
       inFlight := s.inFlight + 1,
       stats := stats,
       deadline := if first then now + cfg.timeout else s.deadline)
  }

  /** The earliest request deadline among the first j nodes, zero when none is waited for. */
  function EarliestDeadline(nodes: seq<Node>, j: nat): Instant
    requires j <= |nodes|
  {
    if j == 0 then 0 else
    var e := EarliestDeadline(nodes, j - 1);
    var st := nodes[j - 1].state;
    if st.Waiting? && (e == 0 || st.deadline < e) then st.deadline else e
  }

  /** The keys of the nodes a finished query reports, in order: every node that succeeded, for a
      coverage query only those inside the region. */
  function Reportable(cfg: Config, nodes: seq<Node>, j: nat): (r: seq<Bits>)
    requires cfg.Valid() && Fits(cfg.target, nodes) && j <= |nodes|
  {
    if j == 0 then [] else
    var n := nodes[j - 1];
    Reportable(cfg, nodes, j - 1) +
    (if n.state.Succeeded? && (cfg.coverage ==> cfg.Inside(n.key)) then [n.key] else [])
  }

  /** A closest-nodes query reports at most numResults of them. */
  function Results(cfg: Config, nodes: seq<Node>): (r: seq<Bits>)
    requires cfg.Valid() && Fits(cfg.target, nodes)
  {
    var all := Reportable(cfg, nodes, |nodes|);
    if !cfg.coverage && |all| > cfg.numResults then all[..cfg.numResults] else all
  }

  function Finish(cfg: Config, now: Instant, s: State): State
    requires cfg.Valid() && Fits(cfg.target, s.nodes)
  {
    s.(finished := true, nextDue := 0,
       stats := s.stats.(end := if s.stats.end == 0 then now else s.stats.end),
       results := Results(cfg, s.nodes))
  }

  // ---------- Events ----------

  predicate ValidEvent(cfg: Config, ev: Event) {
    match ev
    case Response(node, closer) =>
      |node| == |cfg.target| && forall i :: 0 <= i < |closer| ==> |closer[i]| == |cfg.target|
    case Failure(node) => |node| == |cfg.target|
    case _ => true
  }

  function WithState(nodes: seq<Node>, k: Bits, st: NodeState): seq<Node> {
    var i := IndexOf(nodes, k);
    if i < |nodes| then nodes[i := nodes[i].(state := st)] else nodes
  }

  /** What an event does before the walk. A reply from a node not asked, or heard from already, is ignored. */
  function Apply(cfg: Config, s: State, ev: Event): State
    requires cfg.Valid() && Ascending(cfg.target, s.nodes) && ValidEvent(cfg, ev)
  {
    match ev
    case Response(k, closer) =>
      var i := IndexOf(s.nodes, k);
      if i == |s.nodes| then s else
      (match s.nodes[i].state
       case Waiting(_) =>
         s.(nodes := WithState(InsertAll(cfg, s.nodes, closer), k, Succeeded),
            inFlight := s.inFlight - 1, stats := s.stats.(success := s.stats.success + 1))
       case Unresponsive => s.(nodes := WithState(InsertAll(cfg, s.nodes, closer), k, Succeeded))
       case _ => s)
    case Failure(k) =>
      var i := IndexOf(s.nodes, k);
      if i == |s.nodes| then s else
      (match s.nodes[i].state
       case Waiting(_) =>
         s.(nodes := WithState(s.nodes, k, Failed),
            inFlight := s.inFlight - 1, stats := s.stats.(failure := s.stats.failure + 1))
       case Unresponsive => s.(nodes := WithState(s.nodes, k, Failed))
       case NotContacted => s.(nodes := WithState(s.nodes, k, Failed))
       case _ => s)
    case _ => s
  }

  /** The walk that ends every advance of a running query. */
  function Walk(cfg: Config, now: Instant, s: State): (r: (State, Outcome))
    requires cfg.Valid() && Fits(cfg.target, s.nodes)
  {
    var j := StopIndex(cfg, now, s, 0);
    var swept := Swept(now, s, j);
    assert Fits(cfg.target, swept.nodes);
    if j < |s.nodes| && (s.nodes[j].state.Succeeded? || (s.nodes[j].state.NotContacted? && RegionExhausted(cfg, now, s, j))) then
      Ended(cfg, now, swept)
    else if j < |s.nodes| && s.nodes[j].state.NotContacted? && swept.inFlight < cfg.concurrency then
      var d := Dispatched(cfg, now, swept, j);
      (d, if cfg.findCloser then AskCloser(s.nodes[j].key, d.stats) else SendMessage(s.nodes[j].key, d.stats))
    else if j < |s.nodes| then
      var w := swept.(nextDue := EarliestDeadline(swept.nodes, |swept.nodes|));
      (w, WaitingAtCapacity(w.stats, w.deadline, w.nextDue))
    else if swept.inFlight > 0 then
      var w := swept.(nextDue := EarliestDeadline(swept.nodes, |swept.nodes|));
      (w, WaitingWithCapacity(w.stats, w.deadline, w.nextDue))
    else
      Ended(cfg, now, swept)
  }

  function Ended(cfg: Config, now: Instant, s: State): (State, Outcome)
    requires cfg.Valid() && Fits(cfg.target, s.nodes)
  {
    var f := Finish(cfg, now, s);
    (f, Finished(f.results, f.stats))
  }

  /** One advance of the query. */
  function Advance(cfg: Config, s: State, now: Instant, ev: Event): (r: (State, Outcome))
    requires cfg.Valid() && Ascending(cfg.target, s.nodes) && ValidEvent(cfg, ev)
  {
    if s.finished then (s, Finished(s.results, s.stats))
    else if ev.Cancel? then Ended(cfg, now, s)
    else
      var applied := Apply(cfg, s, ev);
      ApplyAscending(cfg, s, ev);
      Walk(cfg, now, applied)
  }

  lemma ApplyAscending(cfg: Config, s: State, ev: Event)
    requires cfg.Valid() && Ascending(cfg.target, s.nodes) && ValidEvent(cfg, ev)
    ensures Ascending(cfg.target, Apply(cfg, s, ev).nodes)
  {
    match ev
    case Response(k, closer) =>
      WithStateAscending(cfg.target, InsertAll(cfg, s.nodes, closer), k, Succeeded);
    case Failure(k) =>
      WithStateAscending(cfg.target, s.nodes, k, Failed);
    case _ =>
  }

  lemma WithStateAscending(t: Bits, nodes: seq<Node>, k: Bits, st: NodeState)
    requires Ascending(t, nodes)
    ensures Ascending(t, WithState(nodes, k, st))
  {
    var r := WithState(nodes, k, st);
    assert forall i :: 0 <= i < |nodes| ==> r[i].key == nodes[i].key;
  }

  /** A new query knows its seeds, without self, and has done nothing. */
  function Start(cfg: Config, seeds: seq<Bits>): State
    requires cfg.Valid()
    requires forall i :: 0 <= i < |seeds| ==> |seeds[i]| == |cfg.target|
  {
    State(InsertAll(cfg, [], seeds), 0, Stats(0, 0, 0, 0, 0), false, 0, 0, [])
  }
}
