/** Exactly what an advance of a lookup does to its nodes, and exactly when it asks, waits and finishes: stated on
    the nodes, which lie in ascending distance, and not on the walk over them. */
module LookupLaws {
  import opened Keys
  import opened Clock
  import opened Lookup
  import opened LookupProofs
  import opened LookupResults

  // ---------- What an event teaches ----------

  /** The nodes known once the event has been noted. An answer counts from a node that is waited for or was given
      up on, and so do the nodes it names; a failure counts from any node that has not answered or failed. */
  ghost predicate Learned(cfg: Config, nodes: seq<Node>, ev: Event, n: Node) {
    match ev
    case Response(k, closer) =>
      if exists m :: m in nodes && m.key == k && (m.state.Waiting? || m.state.Unresponsive?) then
        || n == Node(k, Succeeded)
        || (n in nodes && n.key != k)
        || (n.state.NotContacted? && n.key in closer && n.key != cfg.self && !Knows(nodes, n.key))
      else n in nodes
    case Failure(k) =>
      if exists m :: m in nodes && m.key == k && !m.state.Succeeded? && !m.state.Failed? then
        n == Node(k, Failed) || (n in nodes && n.key != k)
      else n in nodes
    case _ => n in nodes
  }

  lemma LearnedExactly(cfg: Config, s: State, ev: Event, n: Node)
    requires Inv(cfg, s) && ValidEvent(cfg, ev)
    ensures n in Apply(cfg, s, ev).nodes <==> Learned(cfg, s.nodes, ev, n)
  {
    if ev.Response? {
      ResponseLearned(cfg, s, ev, n);
    } else if ev.Failure? {
      FailureLearned(cfg, s, ev, n);
    }
  }

  /** One entry is given a state, and every other stays. */
  lemma OneChanged(t: Bits, nodes: seq<Node>, k: Bits, st: NodeState, n: Node)
    requires Ascending(t, nodes) && Knows(nodes, k)
    ensures n in WithState(nodes, k, st) <==> n == Node(k, st) || (n in nodes && n.key != k)
  {
    var i := IndexOf(nodes, k);
    var x :| 0 <= x < |nodes| && nodes[x].key == k;
    OneIndex(t, nodes, if i < |nodes| then i else x, x);
    var r := WithState(nodes, k, st);
    assert r[i] == Node(k, st);
    if n in nodes && n.key != k {
      var y :| 0 <= y < |nodes| && nodes[y] == n;
      assert r[y] == n;
    }
    if n in r && n != Node(k, st) {
      var y :| 0 <= y < |r| && r[y] == n;
      assert nodes[y] == n && y != i;
      DistinctKeys(t, nodes, y, i);
    }
  }

  lemma StateOf(t: Bits, nodes: seq<Node>, k: Bits)
    requires Ascending(t, nodes)
    ensures IndexOf(nodes, k) < |nodes| <==> Knows(nodes, k)
    ensures forall m :: m in nodes && m.key == k ==> IndexOf(nodes, k) < |nodes| && nodes[IndexOf(nodes, k)] == m
    ensures Knows(nodes, k) ==> nodes[IndexOf(nodes, k)] in nodes
  {
    forall m | m in nodes && m.key == k ensures IndexOf(nodes, k) < |nodes| && nodes[IndexOf(nodes, k)] == m {
      IndexOfMember(t, nodes, m);
    }
    if Knows(nodes, k) {
      var x :| 0 <= x < |nodes| && nodes[x].key == k;
      assert nodes[x] in nodes;
    }
  }

  lemma FailureLearned(cfg: Config, s: State, ev: Event, n: Node)
    requires Inv(cfg, s) && ValidEvent(cfg, ev) && ev.Failure?
    ensures n in Apply(cfg, s, ev).nodes <==> Learned(cfg, s.nodes, ev, n)
  {
    StateOf(cfg.target, s.nodes, ev.node);
    if Knows(s.nodes, ev.node) {
      OneChanged(cfg.target, s.nodes, ev.node, Failed, n);
    }
    hide Balanced, Distance, WithState;
  }

  lemma ResponseLearned(cfg: Config, s: State, ev: Event, n: Node)
    requires Inv(cfg, s) && ValidEvent(cfg, ev) && ev.Response?
    ensures n in Apply(cfg, s, ev).nodes <==> Learned(cfg, s.nodes, ev, n)
  {
    StateOf(cfg.target, s.nodes, ev.node);
    var all := InsertAll(cfg, s.nodes, ev.closer);
    if Knows(s.nodes, ev.node) {
      NamedExactly(cfg, s.nodes, ev.closer, s.nodes[IndexOf(s.nodes, ev.node)]);
      NamedExactly(cfg, s.nodes, ev.closer, n);
      InAll(all, s.nodes[IndexOf(s.nodes, ev.node)]);
      OneChanged(cfg.target, all, ev.node, Succeeded, n);
    }
    hide Balanced, Distance, WithState, InsertAll;
  }

  lemma InAll(nodes: seq<Node>, n: Node)
    ensures n in nodes ==> Knows(nodes, n.key)
  {
    if n in nodes {
      var i :| 0 <= i < |nodes| && nodes[i] == n;
    }
  }

  lemma {:induction false} NamedExactly(cfg: Config, nodes: seq<Node>, keys: seq<Bits>, n: Node)
    requires cfg.Valid() && Ascending(cfg.target, nodes) && forall i :: 0 <= i < |keys| ==> |keys[i]| == |cfg.target|
    ensures n in InsertAll(cfg, nodes, keys) <==>
      n in nodes || (n.state.NotContacted? && n.key in keys && n.key != cfg.self && !Knows(nodes, n.key))
    decreases |keys|
  {
    if |keys| > 0 {
      var init, k := keys[..|keys| - 1], keys[|keys| - 1];
      NamedExactly(cfg, nodes, init, n);
      var rest := InsertAll(cfg, nodes, init);
      assert forall x :: x in keys <==> x in init || x == k;
      if k != cfg.self {
        InsertMembers(cfg.target, rest, k, n);
        HearsOf(cfg, nodes, init, k);
      }
      hide Insert, Distance;
    }
  }

  /** A query that hears of some keys knows those as well, self aside. */
  lemma {:induction false} HearsOf(cfg: Config, nodes: seq<Node>, keys: seq<Bits>, k: Bits)
    requires cfg.Valid() && Ascending(cfg.target, nodes) && forall i :: 0 <= i < |keys| ==> |keys[i]| == |cfg.target|
    ensures Knows(InsertAll(cfg, nodes, keys), k) <==> Knows(nodes, k) || (k in keys && k != cfg.self)
    decreases |keys|
  {
    if |keys| > 0 {
      var init, last := keys[..|keys| - 1], keys[|keys| - 1];
      HearsOf(cfg, nodes, init, k);
      var rest := InsertAll(cfg, nodes, init);
      assert forall x :: x in keys <==> x in init || x == last;
      if last != cfg.self {
        forall n ensures n in Insert(cfg.target, rest, last) <==> n in rest || (n == Node(last, NotContacted) && !Knows(rest, last)) {
          InsertMembers(cfg.target, rest, last, n);
        }
        hide Insert, Ascending;
        KnowsMore(rest, Insert(cfg.target, rest, last), last, k);
      }
    }
  }

  lemma KnowsMore(nodes: seq<Node>, more: seq<Node>, last: Bits, k: Bits)
    requires forall n :: n in more <==> n in nodes || (n == Node(last, NotContacted) && !Knows(nodes, last))
    ensures Knows(more, k) <==> Knows(nodes, k) || k == last
  {
    if Knows(nodes, k) {
      var i :| 0 <= i < |nodes| && nodes[i].key == k;
      assert nodes[i] in more;
    } else if k == last {
      assert Node(last, NotContacted) in more;
    }
    if Knows(more, k) {
      var i :| 0 <= i < |more| && more[i].key == k;
      assert more[i] in more;
    }
  }

  // ---------- Counting ----------

  /** The nodes before index j that have answered. */
  function Answered(nodes: seq<Node>, j: nat): set<nat>
    requires j <= |nodes|
  {
    set i: nat | i < j && nodes[i].state.Succeeded?
  }

  /** The requests out when those before index j have been given up on that are past their deadline. */
  function Out(now: Instant, nodes: seq<Node>, j: nat): set<nat> {
    set i: nat | i < |nodes| && nodes[i].state.Waiting? && (i >= j || now <= nodes[i].state.deadline)
  }

  lemma {:induction false} CountAnswered(nodes: seq<Node>, j: nat)
    requires j <= |nodes|
    ensures |Answered(nodes, j)| == Sum(Succeeds, nodes, j)
  {
    if j > 0 {
      CountAnswered(nodes, j - 1);
      assert Answered(nodes, j) == Answered(nodes, j - 1) + (if nodes[j - 1].state.Succeeded? then {j - 1} else {});
    } else {
      assert Answered(nodes, 0) == {};
    }
  }

  /** The requests out among the nodes before index i. */
  function OutBefore(now: Instant, nodes: seq<Node>, j: nat, i: nat): set<nat>
    requires i <= |nodes|
  {
    set x: nat | x < i && nodes[x].state.Waiting? && (x >= j || now <= nodes[x].state.deadline)
  }

  lemma {:induction false} CountOut(now: Instant, nodes: seq<Node>, j: nat, i: nat)
    requires j <= |nodes| && i <= |nodes|
    ensures |OutBefore(now, nodes, j, i)| == Sum(Waits, nodes, i) - Sum(Expiring(now), nodes, if i < j then i else j)
  {
    if i > 0 {
      CountOut(now, nodes, j, i - 1);
      OneMoreOut(now, nodes, j, i);
      OneMoreWaits(now, nodes, j, i);
      hide *;
    } else {
      assert OutBefore(now, nodes, j, 0) == {};
    }
  }

  lemma OneMoreOut(now: Instant, nodes: seq<Node>, j: nat, i: nat)
    requires 0 < i <= |nodes|
    ensures var n := nodes[i - 1];
      |OutBefore(now, nodes, j, i)| ==
      |OutBefore(now, nodes, j, i - 1)| + (if n.state.Waiting? && (i - 1 >= j || now <= n.state.deadline) then 1 else 0)
  {
    var n := nodes[i - 1];
    assert OutBefore(now, nodes, j, i) ==
      OutBefore(now, nodes, j, i - 1) + (if n.state.Waiting? && (i - 1 >= j || now <= n.state.deadline) then {i - 1} else {});
  }

  lemma OneMoreWaits(now: Instant, nodes: seq<Node>, j: nat, i: nat)
    requires j <= |nodes| && 0 < i <= |nodes|
    ensures var (n, m, m') := (nodes[i - 1], if i - 1 < j then i - 1 else j, if i < j then i else j);
      Sum(Waits, nodes, i) - Sum(Expiring(now), nodes, m') ==
      Sum(Waits, nodes, i - 1) - Sum(Expiring(now), nodes, m)
      + (if n.state.Waiting? && (i - 1 >= j || now <= n.state.deadline) then 1 else 0)
  {
  }

  lemma InFlightIsOut(cfg: Config, a: State, now: Instant, j: nat)
    requires Inv(cfg, a) && j <= |a.nodes|
    ensures InFlightAt(now, a, j) == |Out(now, a.nodes, j)|
  {
    CountOut(now, a.nodes, j, |a.nodes|);
    assert OutBefore(now, a.nodes, j, |a.nodes|) == Out(now, a.nodes, j);
    hide Sum;
  }

  lemma {:induction false} NobodyOut(now: Instant, nodes: seq<Node>, j: nat)
    requires j <= |nodes|
    ensures Sum(Outstanding(now), nodes, j) == 0 <==>
      forall i :: 0 <= i < j ==> !(nodes[i].state.Waiting? && now <= nodes[i].state.deadline)
  {
    if j > 0 {
      NobodyOut(now, nodes, j - 1);
    }
  }

  lemma {:induction false} SomebodyInside(cfg: Config, nodes: seq<Node>, j: nat)
    requires cfg.Valid() && Fits(cfg.target, nodes) && j <= |nodes|
    ensures Sum(Enters(cfg), nodes, j) > 0 <==> exists i :: 0 <= i < j && nodes[i].state.Succeeded? && cfg.Inside(nodes[i].key)
  {
    if j > 0 {
      SomebodyInside(cfg, nodes, j - 1);
    }
  }

  // ---------- Which requests are given up on ----------

  /** An advance looks no further than a node that is still to be asked, a request in time with as many out as
      may be, or, in a query for the closest, enough answers with nobody nearer waited for. */
  ghost predicate Blocks(cfg: Config, now: Instant, nodes: seq<Node>, i: nat)
    requires i < |nodes|
  {
    match nodes[i].state
    case NotContacted => true
    case Waiting(d) => now <= d && |Out(now, nodes, i)| >= cfg.concurrency
    case Succeeded =>
      && !cfg.coverage && |Answered(nodes, i + 1)| >= cfg.numResults
      && forall x :: 0 <= x < i ==> !(nodes[x].state.Waiting? && now <= nodes[x].state.deadline)
    case _ => false
  }

  /** An advance looks at the node at index x, or has looked at all before it. */
  ghost predicate Reached(cfg: Config, now: Instant, nodes: seq<Node>, x: nat)
    requires x <= |nodes|
  {
    forall i :: 0 <= i < x ==> !Blocks(cfg, now, nodes, i)
  }

  lemma BlocksExactly(cfg: Config, a: State, now: Instant, i: nat)
    requires Inv(cfg, a) && i < |a.nodes|
    ensures cfg.Valid() && Fits(cfg.target, a.nodes)
    ensures StopsAt(cfg, now, a, i) <==> Blocks(cfg, now, a.nodes, i)
  {
    InFlightIsOut(cfg, a, now, i);
    CountAnswered(a.nodes, i);
    CountAnswered(a.nodes, i + 1);
    NobodyOut(now, a.nodes, i);
    hide Sum, InFlightAt, Answered, Out, Distance;
    assert a.nodes[i].state.Succeeded? ==> Sum(Succeeds, a.nodes, i + 1) == Sum(Succeeds, a.nodes, i) + 1 by {
      OneMoreSum(a.nodes, i);
    }
  }

  lemma OneMoreSum(nodes: seq<Node>, i: nat)
    requires i < |nodes|
    ensures nodes[i].state.Succeeded? ==> Sum(Succeeds, nodes, i + 1) == Sum(Succeeds, nodes, i) + 1
  {
  }

  lemma ReachedExactly(cfg: Config, a: State, now: Instant, x: nat)
    requires Inv(cfg, a) && x <= |a.nodes|
    ensures cfg.Valid() && Fits(cfg.target, a.nodes)
    ensures x <= StopIndex(cfg, now, a, 0) <==> Reached(cfg, now, a.nodes, x)
  {
    var j := StopIndex(cfg, now, a, 0);
    forall i | 0 <= i < |a.nodes| ensures StopsAt(cfg, now, a, i) <==> Blocks(cfg, now, a.nodes, i) {
      BlocksExactly(cfg, a, now, i);
    }
    hide Blocks, StopsAt;
  }

  /** What becomes of a node in an advance that reports out, once its event has been noted. */
  ghost predicate Walked(cfg: Config, now: Instant, nodes: seq<Node>, x: nat, n: Node, out: Outcome)
    requires x < |nodes|
  {
    var m := nodes[x];
    if m.state.Waiting? && now > m.state.deadline && Reached(cfg, now, nodes, x) then n == m.(state := Unresponsive)
    else if out.Dispatches() && m.key == out.node then m.state.NotContacted? && n == m.(state := Waiting(now + cfg.requestTimeout))
    else n == m
  }

  /** An advance of a running query: its nodes are those the event teaches, in order, and each of them is as it was,
      given up on, or asked. */
  lemma NodesExactly(cfg: Config, s: State, now: Instant, ev: Event) returns (learned: seq<Node>)
    requires Inv(cfg, s) && now > 0 && !s.finished && !ev.Cancel? && ValidEvent(cfg, ev)
    ensures Ascending(cfg.target, learned) && forall n :: n in learned <==> Learned(cfg, s.nodes, ev, n)
    ensures var (s', out) := Advance(cfg, s, now, ev);
      |s'.nodes| == |learned| && forall x :: 0 <= x < |learned| ==> Walked(cfg, now, learned, x, s'.nodes[x], out)
  {
    RunningAdvance(cfg, s, now, ev);
    var a := Apply(cfg, s, ev);
    learned := a.nodes;
    OrderedNodes(cfg, a);
    hide *;
    forall n ensures n in learned <==> Learned(cfg, s.nodes, ev, n) {
      LearnedExactly(cfg, s, ev, n);
    }
    WalkExactly(cfg, a, now);
  }

  lemma OrderedNodes(cfg: Config, a: State)
    requires Inv(cfg, a)
    ensures cfg.Valid() && Ascending(cfg.target, a.nodes) && Fits(cfg.target, a.nodes)
  {
  }

  lemma WalkExactly(cfg: Config, a: State, now: Instant)
    requires Inv(cfg, a)
    ensures cfg.Valid() && Fits(cfg.target, a.nodes)
    ensures var (s', out) := Walk(cfg, now, a);
      |s'.nodes| == |a.nodes| && forall x :: 0 <= x < |a.nodes| ==> Walked(cfg, now, a.nodes, x, s'.nodes[x], out)
  {
    var j, w := WalkCases(cfg, now, a);
    var (s', out) := Walk(cfg, now, a);
    forall x | 0 <= x < |a.nodes| ensures Walked(cfg, now, a.nodes, x, s'.nodes[x], out) {
      WalkedAt(cfg, a, now, j, w, x);
    }
    hide Walk, StopIndex, Walked, Inv, Distance;
  }

  lemma WalkedAt(cfg: Config, a: State, now: Instant, j: nat, w: State, x: nat)
    requires Inv(cfg, a) && x < |a.nodes| && Fits(cfg.target, a.nodes) && cfg.Valid()
    requires j == StopIndex(cfg, now, a, 0) && w == Swept(now, a, j)
    requires var (s', out) := Walk(cfg, now, a);
      || (s'.nodes == w.nodes && !out.Dispatches())
      || (out.Dispatches() && j < |w.nodes| && w.nodes[j].state.NotContacted?
          && s'.nodes == Dispatched(cfg, now, w, j).nodes && out.node == w.nodes[j].key)
    ensures |Walk(cfg, now, a).0.nodes| == |a.nodes|
    ensures Walked(cfg, now, a.nodes, x, Walk(cfg, now, a).0.nodes[x], Walk(cfg, now, a).1)
  {
    ReachedExactly(cfg, a, now, x);
    var stops := j < |a.nodes| && StopsAt(cfg, now, a, j);
    if j < |a.nodes| && x != j {
      DistinctKeys(cfg.target, a.nodes, x, j);
    }
    hide Walk, Reached, StopIndex, Balanced, Distance, Sum;
  }

  /** A node has answered after an advance only if it had before, or the advance is on its answer to a request; and
      who is reported has answered. */
  lemma OnlyAnswersSucceed(cfg: Config, s: State, now: Instant, ev: Event, k: Bits)
    requires Inv(cfg, s) && now > 0 && !s.finished && ValidEvent(cfg, ev)
    ensures var (s', out) := Advance(cfg, s, now, ev);
      && (Node(k, Succeeded) in s'.nodes ==> Node(k, Succeeded) in s.nodes || (ev.Response? && ev.node == k))
      && (out.Finished? && k in out.results ==> Node(k, Succeeded) in s'.nodes)
  {
    if ev.Cancel? {
      CancelKeeps(cfg, s, now, ev);
    } else {
      var learned := NodesExactly(cfg, s, now, ev);
      SucceededBefore(cfg, s.nodes, learned, ev, now, Advance(cfg, s, now, ev).0.nodes, Advance(cfg, s, now, ev).1, k);
    }
    if Advance(cfg, s, now, ev).1.Finished? {
      ReportsKnown(cfg, s, now, ev);
      if k in Advance(cfg, s, now, ev).1.results {
        ResultsSucceeded(cfg, Advance(cfg, s, now, ev).0.nodes, k);
      }
    }
    hide *;
  }

  lemma CancelKeeps(cfg: Config, s: State, now: Instant, ev: Event)
    requires Inv(cfg, s) && !s.finished && ev.Cancel?
    ensures cfg.Valid() && Ascending(cfg.target, s.nodes) && Advance(cfg, s, now, ev).0.nodes == s.nodes
  {
    OrderedNodes(cfg, s);
    hide Inv, Distance, Results;
  }

  lemma ReportsKnown(cfg: Config, s: State, now: Instant, ev: Event)
    requires Inv(cfg, s) && now > 0 && !s.finished && ValidEvent(cfg, ev) && Advance(cfg, s, now, ev).1.Finished?
    ensures var (s', out) := Advance(cfg, s, now, ev); cfg.Valid() && Fits(cfg.target, s'.nodes) && out.results == Results(cfg, s'.nodes)
  {
    if ev.Cancel? {
      OrderedNodes(cfg, s);
    } else {
      RunningAdvance(cfg, s, now, ev);
      var j, w := WalkCases(cfg, now, Apply(cfg, s, ev));
    }
    hide Inv, Apply, Distance, StopIndex, Reportable;
  }

  lemma ResultsSucceeded(cfg: Config, nodes: seq<Node>, k: Bits)
    requires cfg.Valid() && Fits(cfg.target, nodes) && k in Results(cfg, nodes)
    ensures Node(k, Succeeded) in nodes
  {
    ReportedSucceeded(cfg, nodes, k);
    hide Reportable, Fits;
  }

  lemma SucceededBefore(cfg: Config, nodes: seq<Node>, learned: seq<Node>, ev: Event, now: Instant, after: seq<Node>, out: Outcome, k: Bits)
    requires |after| == |learned| && forall x :: 0 <= x < |learned| ==> Walked(cfg, now, learned, x, after[x], out)
    requires forall n :: n in learned <==> Learned(cfg, nodes, ev, n)
    ensures Node(k, Succeeded) in after ==> Node(k, Succeeded) in nodes || (ev.Response? && ev.node == k)
  {
    if Node(k, Succeeded) in after {
      var x :| 0 <= x < |after| && after[x] == Node(k, Succeeded);
      assert learned[x] == Node(k, Succeeded);
      assert Learned(cfg, nodes, ev, learned[x]);
    }
    hide Reached;
  }

  /** A node that answers a request has answered after the advance, and one that fails to has failed. */
  lemma AnswerNoted(cfg: Config, s: State, now: Instant, ev: Event, k: Bits, st: NodeState)
    requires Inv(cfg, s) && now > 0 && !s.finished && ValidEvent(cfg, ev) && Node(k, st) in s.nodes
    ensures var after := Advance(cfg, s, now, ev).0.nodes;
      && (ev.Response? && ev.node == k && (st.Waiting? || st.Unresponsive?) ==> Node(k, Succeeded) in after)
      && (ev.Failure? && ev.node == k && !st.Succeeded? && !st.Failed? ==> Node(k, Failed) in after)
      && (st.Succeeded? || (st.Failed? && !ev.Cancel?) ==> Node(k, st) in after)
  {
    if ev.Cancel? {
      CancelKeeps(cfg, s, now, ev);
    } else {
      var learned := NodesExactly(cfg, s, now, ev);
      var (s', out) := Advance(cfg, s, now, ev);
      StateKnown(cfg, s, k, st);
      hide *;
      AnswerKept(cfg, s.nodes, learned, ev, now, s'.nodes, out, k, st);
    }
    hide *;
  }

  /** A known node has one state. */
  lemma StateKnown(cfg: Config, s: State, k: Bits, st: NodeState)
    requires Inv(cfg, s) && Node(k, st) in s.nodes
    ensures forall m :: m in s.nodes && m.key == k ==> m.state == st
  {
    forall m | m in s.nodes && m.key == k ensures m.state == st {
      IndexOfMember(cfg.target, s.nodes, m);
      IndexOfMember(cfg.target, s.nodes, Node(k, st));
    }
    hide Distance;
  }

  lemma AnswerKept(cfg: Config, nodes: seq<Node>, learned: seq<Node>, ev: Event, now: Instant,
                   after: seq<Node>, out: Outcome, k: Bits, st: NodeState)
    requires |after| == |learned| && forall x :: 0 <= x < |learned| ==> Walked(cfg, now, learned, x, after[x], out)
    requires forall n :: n in learned <==> Learned(cfg, nodes, ev, n)
    requires Node(k, st) in nodes && forall m :: m in nodes && m.key == k ==> m.state == st
    ensures ev.Response? && ev.node == k && (st.Waiting? || st.Unresponsive?) ==> Node(k, Succeeded) in after
    ensures ev.Failure? && ev.node == k && !st.Succeeded? && !st.Failed? ==> Node(k, Failed) in after
    ensures st.Succeeded? || st.Failed? ==> Node(k, st) in after
  {
    var m := Node(k, st);
    var st' :=
      if ev.Response? && ev.node == k && (st.Waiting? || st.Unresponsive?) then Succeeded
      else if ev.Failure? && ev.node == k && !st.Succeeded? && !st.Failed? then Failed else st;
    assert m.key == k && m.state == st;
    assert Learned(cfg, nodes, ev, Node(k, st'));
    var x :| 0 <= x < |learned| && learned[x] == Node(k, st');
    assert st'.Succeeded? || st'.Failed? ==> after[x] == learned[x] && after[x] in after;
    hide Reached;
  }

  /** The nodes still to be asked. */
  function Open(nodes: seq<Node>): set<Node> {
    set n | n in nodes && n.state.NotContacted?
  }

  /** A poll that asks leaves one node fewer to be asked. */
  lemma PollAsksOne(cfg: Config, s: State, now: Instant)
    requires Inv(cfg, s) && now > 0 && !s.finished && ValidEvent(cfg, Poll)
    ensures var (s', out) := Advance(cfg, s, now, Poll);
      out.Dispatches() ==> Node(out.node, NotContacted) in Open(s.nodes) && Open(s'.nodes) == Open(s.nodes) - {Node(out.node, NotContacted)}
  {
    hide *;
    OrderedNodes(cfg, s);
    var learned := NodesExactly(cfg, s, now, Poll);
    var (s', out) := Advance(cfg, s, now, Poll);
    if out.AskCloser? || out.SendMessage? {
      DispatchesAsk(out);
      AsksNearest(cfg, s, now, Poll);
      PollTeachesNothing(cfg, s);
      OneFewerOpen(cfg, now, s.nodes, learned, s'.nodes, out);
    }
    DispatchesAsk(out);
  }

  lemma DispatchesAsk(out: Outcome)
    ensures out.Dispatches() <==> out.AskCloser? || out.SendMessage?
  {
  }

  lemma PollTeachesNothing(cfg: Config, s: State)
    requires Inv(cfg, s) && ValidEvent(cfg, Poll)
    ensures cfg.Valid() && Ascending(cfg.target, s.nodes) && Apply(cfg, s, Poll) == s
    ensures forall n :: Learned(cfg, s.nodes, Poll, n) <==> n in s.nodes
  {
    OrderedNodes(cfg, s);
  }

  lemma OneFewerOpen(cfg: Config, now: Instant, nodes: seq<Node>, learned: seq<Node>, after: seq<Node>, out: Outcome)
    requires forall n :: n in learned <==> n in nodes
    requires |after| == |learned| && forall x :: 0 <= x < |learned| ==> Walked(cfg, now, learned, x, after[x], out)
    requires out.Dispatches() && Node(out.node, NotContacted) in nodes
    ensures Node(out.node, NotContacted) in Open(nodes) && Open(after) == Open(nodes) - {Node(out.node, NotContacted)}
  {
    forall n | n in Open(after) ensures n in Open(nodes) && n.key != out.node {
      var x :| 0 <= x < |after| && after[x] == n;
      assert learned[x] == n && n in learned;
    }
    forall n | n in Open(nodes) && n != Node(out.node, NotContacted) ensures n in Open(after) {
      assert n in learned;
      var x :| 0 <= x < |learned| && learned[x] == n;
      assert after[x] == n;
    }
    hide Reached;
  }

  // ---------- When it finishes ----------

  /** The search is over: every node is resolved; or, in a query for the closest, enough have answered and every
      nearer node is resolved; or, in a coverage query, the nearest node to ask lies outside the region, every
      nearer one is resolved, and a member was found or enough have answered without one. */
  ghost predicate Complete(cfg: Config, nodes: seq<Node>)
    requires cfg.Valid() && Fits(cfg.target, nodes)
  {
    || (forall x :: 0 <= x < |nodes| ==> Resolved(nodes[x].state))
    || (!cfg.coverage && exists i :: 0 <= i < |nodes| && Enough(cfg, nodes, i))
    || (cfg.coverage && exists i :: 0 <= i < |nodes| && Boundary(cfg, nodes, i))
  }

  ghost predicate Enough(cfg: Config, nodes: seq<Node>, i: nat)
    requires i < |nodes|
  {
    && nodes[i].state.Succeeded? && |Answered(nodes, i + 1)| >= cfg.numResults
    && forall x :: 0 <= x < i ==> Resolved(nodes[x].state)
  }

  ghost predicate Boundary(cfg: Config, nodes: seq<Node>, i: nat)
    requires cfg.Valid() && Fits(cfg.target, nodes) && i < |nodes|
  {
    && nodes[i].state.NotContacted? && !cfg.Inside(nodes[i].key)
    && (forall x :: 0 <= x < i ==> Resolved(nodes[x].state))
    && ((exists x :: 0 <= x < i && nodes[x].state.Succeeded? && cfg.Inside(nodes[x].key)) || |Answered(nodes, i)| >= cfg.numResults)
  }

  /** The nodes with the one just asked, if any, still to be asked. */
  function BeforeAsking(nodes: seq<Node>, out: Outcome): (r: seq<Node>)
    ensures |r| == |nodes| && forall x :: 0 <= x < |r| ==> r[x].key == nodes[x].key
  {
    seq(|nodes|, x requires 0 <= x < |nodes| =>
      if out.Dispatches() && nodes[x].key == out.node then nodes[x].(state := NotContacted) else nodes[x])
  }

  lemma SameFits(t: Bits, a: seq<Node>, b: seq<Node>)
    requires Fits(t, a) && |a| == |b| && forall x :: 0 <= x < |a| ==> b[x].key == a[x].key
    ensures Fits(t, b)
  {
  }

  /** A query finishes exactly when its search is over. */
  lemma FinishesExactly(cfg: Config, s: State, now: Instant, ev: Event)
    requires Inv(cfg, s) && now > 0 && !s.finished && !ev.Cancel? && ValidEvent(cfg, ev)
    ensures var (s', out) := Advance(cfg, s, now, ev);
      && cfg.Valid() && Fits(cfg.target, BeforeAsking(s'.nodes, out))
      && (out.Finished? <==> Complete(cfg, BeforeAsking(s'.nodes, out)))
  {
    RunningAdvance(cfg, s, now, ev);
    hide *;
    WalkFinishes(cfg, Apply(cfg, s, ev), now);
  }

  lemma WalkFinishes(cfg: Config, a: State, now: Instant)
    requires Inv(cfg, a)
    ensures cfg.Valid() && Fits(cfg.target, a.nodes)
    ensures var (s', out) := Walk(cfg, now, a);
      && Fits(cfg.target, BeforeAsking(s'.nodes, out))
      && (out.Finished? <==> Complete(cfg, BeforeAsking(s'.nodes, out)))
  {
    var j, w := WalkCases(cfg, now, a);
    SweepKeepsInv(cfg, now, a, j, 0);
    OrderedNodes(cfg, a);
    OrderedNodes(cfg, w);
    SweptBack(cfg, a, now, j, w);
    if Walk(cfg, now, a).1.Finished? {
      FinishedIsComplete(cfg, a, now, j, w);
    } else {
      OpenIsIncomplete(cfg, a, now, j, w);
    }
    hide *;
  }

  lemma SweptBack(cfg: Config, a: State, now: Instant, j: nat, w: State)
    requires Inv(cfg, w) && Fits(cfg.target, w.nodes) && cfg.Valid() && Fits(cfg.target, a.nodes)
    requires j == StopIndex(cfg, now, a, 0) && w == Swept(now, a, j)
    ensures BeforeAsking(Walk(cfg, now, a).0.nodes, Walk(cfg, now, a).1) == w.nodes
  {
    var j', w' := WalkCases(cfg, now, a);
    var (s', out) := Walk(cfg, now, a);
    forall x | 0 <= x < |w.nodes| ensures |s'.nodes| == |w.nodes| && BeforeAsking(s'.nodes, out)[x] == w.nodes[x] {
      if j < |w.nodes| && x != j {
        DistinctKeys(cfg.target, w.nodes, x, j);
      }
    }
    hide Walk, Swept, StopIndex, Distance, Balanced;
  }

  /** Before the stop every node is resolved or waited for in time. */
  lemma BeforeStop(cfg: Config, a: State, now: Instant, j: nat, w: State, x: nat)
    requires Inv(cfg, a) && Fits(cfg.target, a.nodes) && cfg.Valid()
    requires j == StopIndex(cfg, now, a, 0) && w == Swept(now, a, j) && x < j
    ensures |w.nodes| == |a.nodes|
    ensures Resolved(w.nodes[x].state) || (w.nodes[x].state.Waiting? && now <= w.nodes[x].state.deadline)
    ensures w.nodes[x].key == a.nodes[x].key && (w.nodes[x].state.Succeeded? <==> a.nodes[x].state.Succeeded?)
    ensures Resolved(w.nodes[x].state) <==> !(a.nodes[x].state.Waiting? && now <= a.nodes[x].state.deadline)
  {
    assert !StopsAt(cfg, now, a, x);
    hide InFlightAt, Sum, Distance;
  }

  lemma AnsweredSame(a: seq<Node>, w: seq<Node>, j: nat)
    requires |a| == |w| && j <= |a| && forall x :: 0 <= x < j ==> (w[x].state.Succeeded? <==> a[x].state.Succeeded?)
    ensures Answered(w, j) == Answered(a, j)
  {
  }

  /** The nodes before index j as a walk leaves them: resolved or waited for in time. */
  ghost predicate Passed(now: Instant, nodes: seq<Node>, after: seq<Node>, j: nat) {
    && |after| == |nodes| && j <= |nodes|
    && forall x :: 0 <= x < j ==>
         && after[x].key == nodes[x].key && (after[x].state.Succeeded? <==> nodes[x].state.Succeeded?)
         && (Resolved(after[x].state) <==> !(nodes[x].state.Waiting? && now <= nodes[x].state.deadline))
  }

  lemma PassedBefore(cfg: Config, a: State, now: Instant, j: nat, w: State)
    requires Inv(cfg, a) && Fits(cfg.target, a.nodes) && cfg.Valid() && j == StopIndex(cfg, now, a, 0) && w == Swept(now, a, j)
    ensures Passed(now, a.nodes, w.nodes, j)
    ensures Answered(w.nodes, j) == Answered(a.nodes, j)
  {
    forall x | 0 <= x < j
      ensures |w.nodes| == |a.nodes| && w.nodes[x].key == a.nodes[x].key
      ensures w.nodes[x].state.Succeeded? <==> a.nodes[x].state.Succeeded?
      ensures Resolved(w.nodes[x].state) <==> !(a.nodes[x].state.Waiting? && now <= a.nodes[x].state.deadline)
    {
      BeforeStop(cfg, a, now, j, w, x);
    }
    AnsweredSame(a.nodes, w.nodes, j);
    hide StopIndex, Resolved, Inv, Answered, Distance;
  }

  lemma FinishedIsComplete(cfg: Config, a: State, now: Instant, j: nat, w: State)
    requires Inv(cfg, a) && cfg.Valid() && Fits(cfg.target, a.nodes) && Inv(cfg, w) && Fits(cfg.target, w.nodes)
    requires j == StopIndex(cfg, now, a, 0) && w == Swept(now, a, j) && Walk(cfg, now, a).1.Finished?
    ensures Complete(cfg, w.nodes)
  {
    if j == |a.nodes| {
      forall x | 0 <= x < |w.nodes| ensures Resolved(w.nodes[x].state) {
        LookupResults.ExhaustedResolved(cfg, now, a, x);
      }
      hide Walk, Sum, Swept, Enough, Boundary, Inv, Fits, Resolved;
    } else {
      hide *;
      PassedBefore(cfg, a, now, j, w);
      EndedAt(cfg, a, now, j);
      NobodyOut(now, a.nodes, j);
      SameAtStop(a, now, j, w);
      EndsThere(cfg, now, a.nodes, w.nodes, j);
    }
  }

  lemma EndsThere(cfg: Config, now: Instant, nodes: seq<Node>, after: seq<Node>, j: nat)
    requires cfg.Valid() && Fits(cfg.target, nodes) && Fits(cfg.target, after)
    requires Passed(now, nodes, after, j) && j < |nodes| && after[j] == nodes[j] && Answered(after, j) == Answered(nodes, j)
    requires forall i :: 0 <= i < j ==> !(nodes[i].state.Waiting? && now <= nodes[i].state.deadline)
    requires nodes[j].state.Succeeded? ==> !cfg.coverage && Sum(Succeeds, nodes, j + 1) >= cfg.numResults
    requires !nodes[j].state.Succeeded? ==>
      && cfg.coverage && nodes[j].state.NotContacted? && !cfg.Inside(nodes[j].key)
      && (Sum(Enters(cfg), nodes, j) > 0 || Sum(Succeeds, nodes, j) >= cfg.numResults)
    ensures Complete(cfg, after)
  {
    CountAnswered(nodes, j);
    CountAnswered(nodes, j + 1);
    SomebodyInside(cfg, nodes, j);
    if nodes[j].state.Succeeded? {
      AnsweredSame(nodes, after, j + 1);
      assert Enough(cfg, after, j);
    } else {
      assert Boundary(cfg, after, j);
    }
    hide Sum, Answered, Fits, Resolved;
  }

  lemma SameAtStop(a: State, now: Instant, j: nat, w: State)
    requires j <= |a.nodes| && w == Swept(now, a, j) && j < |w.nodes|
    ensures |w.nodes| == |a.nodes| && w.nodes[j] == a.nodes[j]
  {
  }

  /** What a walk has counted that ends before the last node. */
  lemma EndedAt(cfg: Config, a: State, now: Instant, j: nat)
    requires cfg.Valid() && Fits(cfg.target, a.nodes) && j == StopIndex(cfg, now, a, 0) < |a.nodes|
    requires Walk(cfg, now, a).1.Finished?
    ensures Sum(Outstanding(now), a.nodes, j) == 0
    ensures a.nodes[j].state.Succeeded? ==> !cfg.coverage && Sum(Succeeds, a.nodes, j + 1) >= cfg.numResults
    ensures !a.nodes[j].state.Succeeded? ==>
      && cfg.coverage && a.nodes[j].state.NotContacted? && !cfg.Inside(a.nodes[j].key)
      && (Sum(Enters(cfg), a.nodes, j) > 0 || Sum(Succeeds, a.nodes, j) >= cfg.numResults)
  {
    assert StopsAt(cfg, now, a, j);
  }

  lemma OpenIsIncomplete(cfg: Config, a: State, now: Instant, j: nat, w: State)
    requires Inv(cfg, a) && cfg.Valid() && Fits(cfg.target, a.nodes) && Inv(cfg, w) && Fits(cfg.target, w.nodes)
    requires j == StopIndex(cfg, now, a, 0) && w == Swept(now, a, j) && !Walk(cfg, now, a).1.Finished?
    ensures !Complete(cfg, w.nodes)
  {
    SomeUnresolved(cfg, a, now, j, w);
    forall i | 0 <= i < |w.nodes|
      ensures !cfg.coverage ==> !Enough(cfg, w.nodes, i)
      ensures cfg.coverage ==> !Boundary(cfg, w.nodes, i)
    {
      NotOverAt(cfg, a, now, j, w, i);
    }
    hide Walk, StopIndex, Swept, Enough, Boundary, Inv, Fits, Resolved;
  }

  /** Something is left to do: a node waited for, or one to ask. */
  lemma SomeUnresolved(cfg: Config, a: State, now: Instant, j: nat, w: State)
    requires Inv(cfg, a) && cfg.Valid() && Fits(cfg.target, a.nodes) && Inv(cfg, w)
    requires j == StopIndex(cfg, now, a, 0) && w == Swept(now, a, j) && !Walk(cfg, now, a).1.Finished?
    ensures exists x :: 0 <= x < |w.nodes| && !Resolved(w.nodes[x].state)
  {
    if j < |a.nodes| {
      assert StopsAt(cfg, now, a, j);
      assert w.nodes[j] == a.nodes[j] && !Resolved(w.nodes[j].state);
    } else {
      assert w.inFlight > 0;
      var x := SumPositive(Waits, w.nodes, |w.nodes|);
      assert !Resolved(w.nodes[x].state);
    }
    hide StopIndex, Sum, Distance;
  }

  /** The search is not over at a node before the stop, for then the walk would have ended there, nor at one
      beyond it, for the node at the stop is not resolved. */
  lemma NotOverAt(cfg: Config, a: State, now: Instant, j: nat, w: State, i: nat)
    requires Inv(cfg, a) && cfg.Valid() && Fits(cfg.target, a.nodes) && Fits(cfg.target, w.nodes) && i < |w.nodes|
    requires j == StopIndex(cfg, now, a, 0) && w == Swept(now, a, j) && !Walk(cfg, now, a).1.Finished?
    ensures !cfg.coverage ==> !Enough(cfg, w.nodes, i)
    ensures cfg.coverage ==> !Boundary(cfg, w.nodes, i)
  {
    hide *;
    PassedBefore(cfg, a, now, j, w);
    if i < j {
      NotEnoughBefore(cfg, a, now, j, w, i);
      NoBoundaryBefore(cfg, a, now, j, w, i);
    } else {
      GoesOnAt(cfg, a, now, j);
      SameAtStop(a, now, j, w);
      NobodyOut(now, a.nodes, j);
      GoesOnBeyond(cfg, now, a.nodes, w.nodes, j, i);
    }
  }

  lemma NotEnoughBefore(cfg: Config, a: State, now: Instant, j: nat, w: State, i: nat)
    requires Inv(cfg, a) && cfg.Valid() && Fits(cfg.target, a.nodes) && i < j
    requires j == StopIndex(cfg, now, a, 0) && w == Swept(now, a, j) && Passed(now, a.nodes, w.nodes, j)
    ensures !cfg.coverage ==> !Enough(cfg, w.nodes, i)
  {
    assert !StopsAt(cfg, now, a, i);
    BlocksExactly(cfg, a, now, i);
    AnsweredSame(a.nodes, w.nodes, i + 1);
    hide StopIndex, StopsAt, Swept, Answered, Inv, Distance, Resolved;
  }

  lemma NoBoundaryBefore(cfg: Config, a: State, now: Instant, j: nat, w: State, i: nat)
    requires cfg.Valid() && Fits(cfg.target, a.nodes) && Fits(cfg.target, w.nodes) && i < j
    requires j == StopIndex(cfg, now, a, 0) && w == Swept(now, a, j) && i < |w.nodes|
    ensures !Boundary(cfg, w.nodes, i)
  {
    assert !StopsAt(cfg, now, a, i);
    hide StopIndex, InFlightAt, Sum, Answered, Fits;
  }

  lemma GoesOnBeyond(cfg: Config, now: Instant, nodes: seq<Node>, after: seq<Node>, j: nat, i: nat)
    requires cfg.Valid() && Fits(cfg.target, nodes) && Fits(cfg.target, after) && j <= i < |after|
    requires Passed(now, nodes, after, j) && j < |nodes| && after[j] == nodes[j] && Answered(after, j) == Answered(nodes, j)
    requires Sum(Outstanding(now), nodes, j) == 0 <==>
      forall x :: 0 <= x < j ==> !(nodes[x].state.Waiting? && now <= nodes[x].state.deadline)
    requires nodes[j].state.NotContacted? || nodes[j].state.Waiting?
    requires nodes[j].state.NotContacted? && cfg.coverage && !cfg.Inside(nodes[j].key) ==>
      Sum(Outstanding(now), nodes, j) > 0 || (Sum(Enters(cfg), nodes, j) == 0 && Sum(Succeeds, nodes, j) < cfg.numResults)
    ensures !cfg.coverage ==> !Enough(cfg, after, i)
    ensures cfg.coverage ==> !Boundary(cfg, after, i)
  {
    if i > j {
      BeyondOpen(cfg, after, j, i);
    } else {
      GoesOnHere(cfg, now, nodes, after, j);
    }
    hide *;
  }

  lemma BeyondOpen(cfg: Config, after: seq<Node>, j: nat, i: nat)
    requires cfg.Valid() && Fits(cfg.target, after) && j < i < |after| && (after[j].state.NotContacted? || after[j].state.Waiting?)
    ensures !Enough(cfg, after, i) && !Boundary(cfg, after, i)
  {
    hide Answered, Fits;
  }

  lemma GoesOnHere(cfg: Config, now: Instant, nodes: seq<Node>, after: seq<Node>, j: nat)
    requires cfg.Valid() && Fits(cfg.target, nodes) && Fits(cfg.target, after) && j < |after|
    requires Passed(now, nodes, after, j) && j < |nodes| && after[j] == nodes[j] && Answered(after, j) == Answered(nodes, j)
    requires Sum(Outstanding(now), nodes, j) == 0 <==>
      forall x :: 0 <= x < j ==> !(nodes[x].state.Waiting? && now <= nodes[x].state.deadline)
    requires nodes[j].state.NotContacted? || nodes[j].state.Waiting?
    requires nodes[j].state.NotContacted? && cfg.coverage && !cfg.Inside(nodes[j].key) ==>
      Sum(Outstanding(now), nodes, j) > 0 || (Sum(Enters(cfg), nodes, j) == 0 && Sum(Succeeds, nodes, j) < cfg.numResults)
    ensures !Enough(cfg, after, j) && (cfg.coverage ==> !Boundary(cfg, after, j))
  {
    CountAnswered(nodes, j);
    SomebodyInside(cfg, nodes, j);
    hide Sum, Answered, Fits, Resolved;
    assert (forall x :: 0 <= x < j ==> Resolved(after[x].state)) ==> Sum(Outstanding(now), nodes, j) == 0;
    assert |Answered(after, j)| == Sum(Succeeds, nodes, j);
  }

  /** A walk that stops and does not end stops at a node it waits for, or at one it asks or has no room to ask. */
  lemma GoesOnAt(cfg: Config, a: State, now: Instant, j: nat)
    requires cfg.Valid() && Fits(cfg.target, a.nodes) && j == StopIndex(cfg, now, a, 0)
    requires !Walk(cfg, now, a).1.Finished?
    ensures j < |a.nodes| ==> a.nodes[j].state.NotContacted? || a.nodes[j].state.Waiting?
    ensures j < |a.nodes| && a.nodes[j].state.NotContacted? && cfg.coverage && !cfg.Inside(a.nodes[j].key) ==>
      Sum(Outstanding(now), a.nodes, j) > 0 || (Sum(Enters(cfg), a.nodes, j) == 0 && Sum(Succeeds, a.nodes, j) < cfg.numResults)
  {
    assert j < |a.nodes| ==> StopsAt(cfg, now, a, j);
  }

  /** A coverage query finishes by itself only when it has resolved every node it knows, or reports somebody, or
      enough have answered. */
  lemma CoverageFinishes(cfg: Config, s: State, now: Instant, ev: Event)
    requires Inv(cfg, s) && now > 0 && !s.finished && !ev.Cancel? && ValidEvent(cfg, ev) && cfg.coverage
    requires Advance(cfg, s, now, ev).1.Finished?
    ensures var (s', out) := Advance(cfg, s, now, ev);
      || (forall x :: 0 <= x < |s'.nodes| ==> Resolved(s'.nodes[x].state))
      || out.results != [] || |Answered(s'.nodes, |s'.nodes|)| >= cfg.numResults
  {
    FinishedReports(cfg, s, now, ev);
    FinishesExactly(cfg, s, now, ev);
    var (s', out) := Advance(cfg, s, now, ev);
    NothingAsked(s'.nodes, out);
    hide *;
    CompleteReports(cfg, s'.nodes, out.results);
  }

  /** It asks a node outside its region only while a nearer one is waited for, or when no nearer member was found
      and fewer than enough of the nearer nodes have answered. */
  lemma CoverageAsksBeyond(cfg: Config, s: State, now: Instant, ev: Event, i: nat)
    requires Inv(cfg, s) && now > 0 && !s.finished && !ev.Cancel? && ValidEvent(cfg, ev) && cfg.coverage
    requires var (s', out) := Advance(cfg, s, now, ev); out.Dispatches() && i < |s'.nodes| && s'.nodes[i].key == out.node
    ensures var (s', out) := Advance(cfg, s, now, ev);
      && Fits(cfg.target, s'.nodes)
      && (!cfg.Inside(out.node) ==>
            || (exists x :: 0 <= x < i && s'.nodes[x].state.Waiting?)
            || ((forall x :: 0 <= x < i && s'.nodes[x].state.Succeeded? ==> !cfg.Inside(s'.nodes[x].key))
                && |Answered(s'.nodes, i)| < cfg.numResults))
  {
    hide Inv, Advance, Complete, Answered, Distance, Ascending, BeforeAsking, Resolved, ValidEvent, Apply, Fits;
    OrderedNodes(cfg, s);
    AdvanceKeepsInv(cfg, s, now, ev, 0);
    FinishesExactly(cfg, s, now, ev);
    AsksNearest(cfg, s, now, ev);
    var (s', out) := Advance(cfg, s, now, ev);
    assert !out.Finished?;
    hide *;
    OrderedNodes(cfg, s');
    AskedBeyond(cfg, s'.nodes, out, i);
  }

  lemma NothingAsked(nodes: seq<Node>, out: Outcome)
    requires !out.Dispatches()
    ensures BeforeAsking(nodes, out) == nodes
  {
  }

  lemma FinishedReports(cfg: Config, s: State, now: Instant, ev: Event)
    requires Inv(cfg, s) && now > 0 && !s.finished && !ev.Cancel? && ValidEvent(cfg, ev) && Advance(cfg, s, now, ev).1.Finished?
    ensures var (s', out) := Advance(cfg, s, now, ev); Fits(cfg.target, s'.nodes) && out.results == Results(cfg, s'.nodes)
    ensures cfg.Valid() && !Advance(cfg, s, now, ev).1.Dispatches()
  {
    RunningAdvance(cfg, s, now, ev);
    hide Advance, Apply, Inv, Distance;
    var j, w := WalkCases(cfg, now, Apply(cfg, s, ev));
  }

  lemma CompleteReports(cfg: Config, nodes: seq<Node>, r: seq<Bits>)
    requires cfg.Valid() && Fits(cfg.target, nodes) && cfg.coverage && Complete(cfg, nodes) && r == Results(cfg, nodes)
    ensures (forall x :: 0 <= x < |nodes| ==> Resolved(nodes[x].state)) || r != [] || |Answered(nodes, |nodes|)| >= cfg.numResults
  {
    if i :| 0 <= i < |nodes| && Boundary(cfg, nodes, i) {
      if x :| 0 <= x < i && nodes[x].state.Succeeded? && cfg.Inside(nodes[x].key) {
        ReportableMembers(cfg, nodes, |nodes|, nodes[x].key);
      } else {
        MoreAnswered(nodes, i, |nodes|);
      }
    }
    hide Reportable, Answered, Fits, Resolved;
  }

  lemma MoreAnswered(nodes: seq<Node>, i: nat, j: nat)
    requires i <= j <= |nodes|
    ensures |Answered(nodes, i)| <= |Answered(nodes, j)|
  {
    CountAnswered(nodes, i);
    CountAnswered(nodes, j);
    SumMonotone(Succeeds, nodes, i, j);
  }

  lemma AskedBeyond(cfg: Config, nodes: seq<Node>, out: Outcome, i: nat)
    requires cfg.Valid() && Ascending(cfg.target, nodes) && Fits(cfg.target, nodes) && cfg.coverage
    requires out.Dispatches() && i < |nodes| && nodes[i].key == out.node
    requires Fits(cfg.target, BeforeAsking(nodes, out)) && !Complete(cfg, BeforeAsking(nodes, out))
    requires forall x :: 0 <= x < |nodes| && nodes[x].state.NotContacted? ==>
      Distance(out.node, cfg.target) < Distance(nodes[x].key, cfg.target)
    ensures || cfg.Inside(out.node)
            || (exists x :: 0 <= x < i && nodes[x].state.Waiting?)
            || ((forall x :: 0 <= x < i && nodes[x].state.Succeeded? ==> !cfg.Inside(nodes[x].key))
                && |Answered(nodes, i)| < cfg.numResults)
  {
    var before := BeforeAsking(nodes, out);
    forall x | 0 <= x < i ensures before[x] == nodes[x] && !nodes[x].state.NotContacted? {
      DistinctKeys(cfg.target, nodes, x, i);
      assert Distance(nodes[x].key, cfg.target) < Distance(nodes[i].key, cfg.target);
    }
    AnsweredSame(nodes, before, i);
    assert !Boundary(cfg, before, i);
    hide Distance, Answered, Complete, Fits;
  }

  // ---------- When it asks and when it waits ----------

  /** A query that goes on asks if and only if there is a node to ask and room for a request; otherwise it waits, at
      capacity exactly when there is no room. */
  lemma AsksExactly(cfg: Config, s: State, now: Instant, ev: Event)
    requires Inv(cfg, s) && now > 0 && !s.finished && !ev.Cancel? && ValidEvent(cfg, ev)
    requires !Advance(cfg, s, now, ev).1.Finished?
    ensures var (s', out) := Advance(cfg, s, now, ev);
      var out0 := s'.inFlight - (if out.Dispatches() then 1 else 0);
      && (out.Dispatches() <==>
            out0 < cfg.concurrency && exists x :: 0 <= x < |s'.nodes| && BeforeAsking(s'.nodes, out)[x].state.NotContacted?)
      && (out.AskCloser? ==> cfg.findCloser) && (out.SendMessage? ==> !cfg.findCloser)
      && (out.WaitingAtCapacity? <==> !out.Dispatches() && s'.inFlight == cfg.concurrency)
      && (out.WaitingWithCapacity? <==> !out.Dispatches() && s'.inFlight < cfg.concurrency)
      && s'.inFlight == |Out(now, s'.nodes, 0)| > 0
  {
    RunningAdvance(cfg, s, now, ev);
    AdvanceKeepsInv(cfg, s, now, ev, 0);
    var (s', out) := Advance(cfg, s, now, ev);
    InFlightIsOut(cfg, s', now, 0);
    SumNone(now, s'.nodes);
    hide *;
    WalkAsks(cfg, Apply(cfg, s, ev), now);
  }

  lemma SumNone(now: Instant, nodes: seq<Node>)
    ensures Sum(Expiring(now), nodes, 0) == 0
    ensures forall s: State :: s.nodes == nodes ==> InFlightAt(now, s, 0) == s.inFlight
  {
  }

  lemma WalkAsks(cfg: Config, a: State, now: Instant)
    requires Inv(cfg, a) && now > 0
    ensures cfg.Valid() && Fits(cfg.target, a.nodes)
    ensures var (s', out) := Walk(cfg, now, a);
      !out.Finished? ==>
      var out0 := s'.inFlight - (if out.Dispatches() then 1 else 0);
      && (out.Dispatches() <==>
            out0 < cfg.concurrency && exists x :: 0 <= x < |s'.nodes| && BeforeAsking(s'.nodes, out)[x].state.NotContacted?)
      && (out.AskCloser? ==> cfg.findCloser) && (out.SendMessage? ==> !cfg.findCloser)
      && (out.WaitingAtCapacity? <==> !out.Dispatches() && s'.inFlight == cfg.concurrency)
      && (out.WaitingWithCapacity? <==> !out.Dispatches() && s'.inFlight < cfg.concurrency)
      && s'.inFlight > 0
  {
    var j, w := WalkCases(cfg, now, a);
    SweepKeepsInv(cfg, now, a, j, 0);
    OrderedNodes(cfg, w);
    OrderedNodes(cfg, a);
    SweptBack(cfg, a, now, j, w);
    if !Walk(cfg, now, a).1.Finished? {
      WalkLeaves(cfg, a, now, j, w);
      WithinRoom(cfg, w);
    }
    hide StopIndex, Swept, Inv, Distance, Sum, EarliestDeadline;
  }

  lemma WithinRoom(cfg: Config, w: State)
    requires Inv(cfg, w)
    ensures 0 <= w.inFlight <= cfg.concurrency
  {
  }

  /** Past the end of the walk nobody is left to ask, and there is room; a walk that stops has somebody to ask or
      no room. */
  lemma WalkLeaves(cfg: Config, a: State, now: Instant, j: nat, w: State)
    requires Inv(cfg, a) && cfg.Valid() && Fits(cfg.target, a.nodes) && Inv(cfg, w)
    requires j == StopIndex(cfg, now, a, 0) && w == Swept(now, a, j) && !Walk(cfg, now, a).1.Finished?
    ensures |w.nodes| == |a.nodes|
    ensures j == |a.nodes| ==> (forall x :: 0 <= x < |w.nodes| ==> !w.nodes[x].state.NotContacted?) && 0 < w.inFlight < cfg.concurrency
    ensures j < |a.nodes| ==>
      && w.nodes[j] == a.nodes[j]
      && (a.nodes[j].state.NotContacted? || (a.nodes[j].state.Waiting? && w.inFlight >= cfg.concurrency))
  {
    if j < |a.nodes| {
      assert StopsAt(cfg, now, a, j);
    } else {
      forall x | 0 <= x < |w.nodes| ensures !w.nodes[x].state.NotContacted? {
        BeforeStop(cfg, a, now, j, w, x);
      }
      RoomAtEnd(cfg, a, now, w);
    }
    hide StopIndex, Sum, Distance;
  }

  lemma RoomAtEnd(cfg: Config, a: State, now: Instant, w: State)
    requires Inv(cfg, a) && cfg.Valid() && Fits(cfg.target, a.nodes) && Inv(cfg, w)
    requires StopIndex(cfg, now, a, 0) == |a.nodes| && w == Swept(now, a, |a.nodes|) && w.inFlight > 0
    ensures w.inFlight < cfg.concurrency
  {
    var x := SumPositive(Waits, w.nodes, |w.nodes|);
    assert !StopsAt(cfg, now, a, x);
    SumMonotone(Expiring(now), a.nodes, x, |a.nodes|);
    hide Distance;
  }

  // ---------- Counters and times ----------

  /** What an advance counts and records. */
  lemma CountersExactly(cfg: Config, s: State, now: Instant, ev: Event)
    requires Inv(cfg, s) && now > 0 && !s.finished && !ev.Cancel? && ValidEvent(cfg, ev)
    ensures var (s', out) := Advance(cfg, s, now, ev);
      var answers := ev.Response? && exists m :: m in s.nodes && m.key == ev.node && m.state.Waiting?;
      && s'.stats.success == s.stats.success + (if answers then 1 else 0)
      && s'.stats.requests == s.stats.requests + (if out.Dispatches() then 1 else 0)
      && s'.stats.failure == s'.stats.requests - s'.stats.success - |Out(now, s'.nodes, 0)|
      && s'.stats.start == (if s.stats.start == 0 && out.Dispatches() then now else s.stats.start)
      && s'.deadline == (if s'.stats.start == 0 then 0 else s'.stats.start + cfg.timeout)
      && s'.stats.end == (if s.stats.end == 0 && out.Finished? then now else s.stats.end)
      && (s'.finished <==> out.Finished?) && out.stats == s'.stats
      && (out.Finished? ==> out.results == s'.results && s'.nextDue == 0)
      && (out.Waits() ==> out.deadline == s'.deadline && out.nextDue == s'.nextDue)
      && (out.Dispatches() ==> s'.nextDue == s.nextDue)
  {
    RunningAdvance(cfg, s, now, ev);
    AdvanceKeepsInv(cfg, s, now, ev, 0);
    var (s', out) := Advance(cfg, s, now, ev);
    InFlightIsOut(cfg, s', now, 0);
    SumNone(now, s'.nodes);
    NotedCounters(cfg, s, ev);
    BalancedCounters(cfg, s');
    hide *;
    WalkCounters(cfg, Apply(cfg, s, ev), now);
  }

  lemma BalancedCounters(cfg: Config, s: State)
    requires Inv(cfg, s)
    ensures s.stats.requests == s.stats.success + s.stats.failure + s.inFlight
    ensures s.deadline == if s.stats.start == 0 then 0 else s.stats.start + cfg.timeout
  {
  }

  lemma NotedCounters(cfg: Config, s: State, ev: Event)
    requires Inv(cfg, s) && ValidEvent(cfg, ev)
    ensures var a := Apply(cfg, s, ev);
      var answers := ev.Response? && exists m :: m in s.nodes && m.key == ev.node && m.state.Waiting?;
      && a.stats.success == s.stats.success + (if answers then 1 else 0) && a.stats.requests == s.stats.requests
      && a.stats.start == s.stats.start && a.stats.end == s.stats.end && a.finished == s.finished && a.nextDue == s.nextDue
  {
    if ev.Response? {
      StateOf(cfg.target, s.nodes, ev.node);
    }
    hide Balanced, Distance, WithState, InsertAll;
  }

  lemma WalkCounters(cfg: Config, a: State, now: Instant)
    requires Inv(cfg, a) && now > 0 && !a.finished
    ensures cfg.Valid() && Fits(cfg.target, a.nodes)
    ensures var (s', out) := Walk(cfg, now, a);
      && s'.stats.success == a.stats.success
      && s'.stats.requests == a.stats.requests + (if out.Dispatches() then 1 else 0)
      && s'.stats.start == (if a.stats.start == 0 && out.Dispatches() then now else a.stats.start)
      && s'.stats.end == (if a.stats.end == 0 && out.Finished? then now else a.stats.end)
      && (s'.finished <==> out.Finished?) && out.stats == s'.stats
      && (out.Finished? ==> out.results == s'.results && s'.nextDue == 0)
      && (out.Waits() ==> out.deadline == s'.deadline && out.nextDue == s'.nextDue)
      && (out.Dispatches() ==> s'.nextDue == a.nextDue)
  {
    OrderedNodes(cfg, a);
    hide StopIndex, Sum, Distance, Inv, EarliestDeadline, Results, RegionExhausted;
  }

  /** A cancelled query finishes with what it has: the nearest nodes that answered, or the members that did. */
  lemma CancelReports(cfg: Config, s: State, now: Instant, k: Bits)
    requires Inv(cfg, s) && now > 0 && !s.finished
    ensures var (s', out) := Advance(cfg, s, now, Cancel);
      && out.Finished? && s'.finished && s'.nodes == s.nodes && Fits(cfg.target, s.nodes)
      && s'.stats.end == (if s.stats.end == 0 then now else s.stats.end)
      && (!cfg.coverage ==> NearestSucceeded(cfg, s.nodes, cfg.numResults, out.results))
      && (cfg.coverage ==> (k in out.results <==> Node(k, Succeeded) in s.nodes && |k| == |cfg.target| && cfg.Inside(k)))
  {
    OrderedNodes(cfg, s);
    if !cfg.coverage {
      ResultsNearest(cfg, s.nodes);
    } else {
      ReportableMembers(cfg, s.nodes, |s.nodes|, k);
      if Node(k, Succeeded) in s.nodes {
        var i :| 0 <= i < |s.nodes| && s.nodes[i] == Node(k, Succeeded);
      }
      if i :| 0 <= i < |s.nodes| && s.nodes[i].key == k && s.nodes[i].state.Succeeded? {
        assert s.nodes[i] == Node(k, Succeeded);
      }
    }
    hide Reportable, Inv, Distance, NearestSucceeded;
  }
}
