/** What every run of a lookup keeps, when it ends, and what its result means. */
module LookupProofs {
  import opened Keys
  import opened Clock
  import opened Lookup

  // ---------- Sums under change ----------

  lemma {:induction false} SumFront(w: Tally, a: seq<Node>, b: seq<Node>, j: nat)
    requires j <= |a| && j <= |b|
    requires forall i :: 0 <= i < j ==> a[i] == b[i]
    ensures Sum(w, a, j) == Sum(w, b, j)
  {
    if j > 0 {
      SumFront(w, a, b, j - 1);
    }
  }

  lemma {:induction false} SumUpdate(w: Tally, nodes: seq<Node>, i: nat, n: Node, j: nat)
    requires i < |nodes| && j <= |nodes|
    ensures Sum(w, nodes[i := n], j) == Sum(w, nodes, j) + (if i < j then Weight(w, n) - Weight(w, nodes[i]) else 0)
  {
    if j > 0 {
      SumUpdate(w, nodes, i, n, j - 1);
    }
  }

  lemma {:induction false} SumInsert(w: Tally, t: Bits, nodes: seq<Node>, k: Bits)
    requires Ascending(t, nodes) && |k| == |t|
    ensures var r := Insert(t, nodes, k);
      && |r| == |nodes| + (if Knows(nodes, k) then 0 else 1)
      && Sum(w, r, |r|) == Sum(w, nodes, |nodes|) + (if Knows(nodes, k) then 0 else Weight(w, Node(k, NotContacted)))
    decreases |nodes|
  {
    var added := Node(k, NotContacted);
    if |nodes| == 0 {
      assert Sum(w, [added], 1) == Sum(w, [added], 0) + Weight(w, added);
    } else {
      var m := |nodes| - 1;
      var front, last := nodes[..m], nodes[m];
      InsertCases(t, nodes, k);
      hide *;
      if last.key == k {
      } else if Distance(last.key, t) < Distance(k, t) {
        SumSnoc(w, nodes, added);
      } else {
        SumInsert(w, t, front, k);
        assert nodes == front + [last];
        SumSnoc(w, Insert(t, front, k), last);
        SumSnoc(w, front, last);
      }
    }
  }

  /** Where a key is inserted, by its distance and the last node's. */
  lemma InsertCases(t: Bits, nodes: seq<Node>, k: Bits)
    requires Ascending(t, nodes) && |k| == |t| && |nodes| > 0
    ensures var front, last := nodes[..|nodes| - 1], nodes[|nodes| - 1];
      && Ascending(t, front) && |last.key| == |t|
      && (last.key == k ==> Insert(t, nodes, k) == nodes && Knows(nodes, k))
      && (last.key != k && Distance(last.key, t) < Distance(k, t) ==>
            Insert(t, nodes, k) == nodes + [Node(k, NotContacted)] && !Knows(nodes, k))
      && (last.key != k && Distance(last.key, t) >= Distance(k, t) ==>
            Insert(t, nodes, k) == Insert(t, front, k) + [last] && (Knows(nodes, k) <==> Knows(front, k)))
  {
    if nodes[|nodes| - 1].key != k {
      KnowsFront(nodes, k);
    }
    hide Distance;
  }

  lemma SumSnoc(w: Tally, nodes: seq<Node>, n: Node)
    ensures Sum(w, nodes + [n], |nodes + [n]|) == Sum(w, nodes, |nodes|) + Weight(w, n)
  {
    SumFront(w, nodes + [n], nodes, |nodes|);
  }

  lemma {:induction false} SumZero(w: Tally, nodes: seq<Node>, j: nat, i: nat)
    requires i < j <= |nodes| && Sum(w, nodes, j) == 0
    ensures Weight(w, nodes[i]) == 0
  {
    if i < j - 1 {
      SumZero(w, nodes, j - 1, i);
    }
  }

  lemma {:induction false} SumPositive(w: Tally, nodes: seq<Node>, j: nat) returns (i: nat)
    requires j <= |nodes| && Sum(w, nodes, j) > 0
    ensures i < j && Weight(w, nodes[i]) > 0
  {
    i := j - 1;
    if Weight(w, nodes[i]) == 0 {
      i := SumPositive(w, nodes, j - 1);
    }
  }

  lemma {:induction false} SumMonotone(w: Tally, nodes: seq<Node>, i: nat, j: nat)
    requires i <= j <= |nodes|
    ensures Sum(w, nodes, i) <= Sum(w, nodes, j)
  {
    if i < j {
      SumMonotone(w, nodes, i, j - 1);
    }
  }

  /** Expiring the nodes before j moves each from waiting to unresponsive, one rank down. */
  lemma {:induction false} SumExpire(now: Instant, nodes: seq<Node>, j: nat, i: nat)
    requires i <= |nodes| && j <= |nodes|
    ensures var r, m := Expire(now, nodes, j), if i < j then i else j;
      && Sum(Waits, r, i) == Sum(Waits, nodes, i) - Sum(Expiring(now), nodes, m)
      && Sum(Rank, r, i) == Sum(Rank, nodes, i) - Sum(Expiring(now), nodes, m)
      && Sum(Succeeds, r, i) == Sum(Succeeds, nodes, i)
  {
    if i > 0 {
      SumExpire(now, nodes, j, i - 1);
    }
  }

  lemma {:induction false} SumExpireEnters(cfg: Config, now: Instant, nodes: seq<Node>, j: nat, i: nat)
    requires i <= |nodes| && j <= |nodes|
    ensures Sum(Enters(cfg), Expire(now, nodes, j), i) == Sum(Enters(cfg), nodes, i)
  {
    if i > 0 {
      SumExpireEnters(cfg, now, nodes, j, i - 1);
    }
  }

  // ---------- The invariant ----------

  /** The nodes lie in order, self is not among them, and every request out carries a deadline. */
  ghost predicate GoodNodes(cfg: Config, nodes: seq<Node>) {
    && cfg.Valid()
    && Ascending(cfg.target, nodes)
    && (forall n :: n in nodes ==> n.key != cfg.self)
    && (forall n :: n in nodes && n.state.Waiting? ==> n.state.deadline > 0)
  }

  /** The counters balance: every request sent was answered, failed, or is still out, and no more
      requests are out than the query may have. */
  ghost predicate Balanced(cfg: Config, s: State) {
    && s.inFlight == Sum(Waits, s.nodes, |s.nodes|) <= cfg.concurrency
    && s.stats.requests == s.stats.success + s.stats.failure + s.inFlight
    && (s.stats.start == 0 ==> s.inFlight == 0)
    && s.deadline == (if s.stats.start == 0 then 0 else s.stats.start + cfg.timeout)
  }

  /** What holds between any two advances. */
  ghost predicate Inv(cfg: Config, s: State) {
    GoodNodes(cfg, s.nodes) && Balanced(cfg, s)
  }

  /** Bounds how often the state can still change: four changes for a node of the universe not yet
      heard of, its rank for a known one, and one for finishing. */
  ghost function Remaining(universe: nat, s: State): int {
    4 * (universe - |s.nodes|) + Sum(Rank, s.nodes, |s.nodes|) + (if s.finished then 0 else 1)
  }

  lemma InsertKeepsGood(cfg: Config, nodes: seq<Node>, k: Bits)
    requires GoodNodes(cfg, nodes) && |k| == |cfg.target| && k != cfg.self
    ensures GoodNodes(cfg, Insert(cfg.target, nodes, k))
  {
    InsertAscending(cfg.target, nodes, k);
    forall n | n in Insert(cfg.target, nodes, k)
      ensures n.key != cfg.self && (n.state.Waiting? ==> n.state.deadline > 0)
    {
      InsertMembers(cfg.target, nodes, k, n);
    }
  }

  lemma {:induction false} InsertAllKeepsGood(cfg: Config, nodes: seq<Node>, keys: seq<Bits>)
    requires GoodNodes(cfg, nodes)
    requires forall i :: 0 <= i < |keys| ==> |keys[i]| == |cfg.target|
    ensures GoodNodes(cfg, InsertAll(cfg, nodes, keys))
    decreases |keys|
  {
    if |keys| > 0 {
      var init, k := keys[..|keys| - 1], keys[|keys| - 1];
      InsertAllKeepsGood(cfg, nodes, init);
      if k != cfg.self {
        InsertKeepsGood(cfg, InsertAll(cfg, nodes, init), k);
      }
    }
  }

  /** Newly heard-of nodes are not waited for and can each change three more times. */
  lemma {:induction false} InsertAllSums(cfg: Config, nodes: seq<Node>, keys: seq<Bits>)
    requires cfg.Valid() && Ascending(cfg.target, nodes)
    requires forall i :: 0 <= i < |keys| ==> |keys[i]| == |cfg.target|
    ensures var r := InsertAll(cfg, nodes, keys);
      && |r| >= |nodes|
      && Sum(Waits, r, |r|) == Sum(Waits, nodes, |nodes|)
      && Sum(Rank, r, |r|) == Sum(Rank, nodes, |nodes|) + 3 * (|r| - |nodes|)
    decreases |keys|
  {
    if |keys| > 0 {
      var init, k := keys[..|keys| - 1], keys[|keys| - 1];
      InsertAllSums(cfg, nodes, init);
      if k != cfg.self {
        SumInsert(Waits, cfg.target, InsertAll(cfg, nodes, init), k);
        SumInsert(Rank, cfg.target, InsertAll(cfg, nodes, init), k);
      }
    }
  }

  /** A node already known keeps its entry; a new entry is an uncontacted node from the reply. */
  lemma {:induction false} InsertAllMembers(cfg: Config, nodes: seq<Node>, keys: seq<Bits>, n: Node)
    requires cfg.Valid() && Ascending(cfg.target, nodes)
    requires forall i :: 0 <= i < |keys| ==> |keys[i]| == |cfg.target|
    ensures var r := InsertAll(cfg, nodes, keys);
      && (n in nodes ==> n in r)
      && (n in r ==> n in nodes || (n.state.NotContacted? && n.key in keys && n.key != cfg.self))
    decreases |keys|
  {
    if |keys| > 0 {
      var init, k := keys[..|keys| - 1], keys[|keys| - 1];
      InsertAllMembers(cfg, nodes, init, n);
      if k != cfg.self {
        InsertMembers(cfg.target, InsertAll(cfg, nodes, init), k, n);
      }
    }
  }

  /** In ascending order a key names one index. */
  lemma OneIndex(t: Bits, nodes: seq<Node>, i: nat, j: nat)
    requires Ascending(t, nodes) && i < |nodes| && j < |nodes| && nodes[i].key == nodes[j].key
    ensures i == j
  {
    if i != j {
      DistinctKeys(t, nodes, i, j);
    }
  }

  lemma DistinctKeys(t: Bits, nodes: seq<Node>, i: nat, j: nat)
    requires Ascending(t, nodes) && i < |nodes| && j < |nodes| && i != j
    ensures nodes[i].key != nodes[j].key
  {
    if i < j {
      assert Distance(nodes[i].key, t) < Distance(nodes[j].key, t);
    } else {
      assert Distance(nodes[j].key, t) < Distance(nodes[i].key, t);
    }
  }

  lemma IndexOfMember(t: Bits, nodes: seq<Node>, n: Node)
    requires Ascending(t, nodes) && n in nodes
    ensures IndexOf(nodes, n.key) < |nodes| && nodes[IndexOf(nodes, n.key)] == n
  {
    var i :| 0 <= i < |nodes| && nodes[i] == n;
    OneIndex(t, nodes, i, IndexOf(nodes, n.key));
  }

  /** Changing the state of one node, counted. */
  lemma UpdateFacts(cfg: Config, nodes: seq<Node>, i: nat, st: NodeState)
    requires GoodNodes(cfg, nodes) && i < |nodes| && (st.Waiting? ==> st.deadline > 0)
    ensures var r := nodes[i := nodes[i].(state := st)];
      && GoodNodes(cfg, r)
      && Sum(Waits, r, |r|) == Sum(Waits, nodes, |nodes|) - Weight(Waits, nodes[i]) + Weight(Waits, Node(nodes[i].key, st))
      && Sum(Rank, r, |r|) == Sum(Rank, nodes, |nodes|) - Weight(Rank, nodes[i]) + Weight(Rank, Node(nodes[i].key, st))
  {
    var n := nodes[i].(state := st);
    SumUpdate(Waits, nodes, i, n, |nodes|);
    SumUpdate(Rank, nodes, i, n, |nodes|);
    SameKeysKeepGood(cfg, nodes, nodes[i := n]);
  }

  lemma SameKeysKeepGood(cfg: Config, a: seq<Node>, b: seq<Node>)
    requires GoodNodes(cfg, a) && |a| == |b|
    requires forall i :: 0 <= i < |a| ==> b[i].key == a[i].key && (b[i].state.Waiting? ==> b[i].state == a[i].state || b[i].state.deadline > 0)
    ensures GoodNodes(cfg, b)
  {
    forall n | n in b
      ensures n.key != cfg.self && (n.state.Waiting? ==> n.state.deadline > 0)
    {
      var i :| 0 <= i < |b| && b[i] == n;
      assert a[i] in a;
    }
  }

  /** What a reply or failure changes: the replying node's state, with the reply's nodes added. */
  lemma ApplyShape(cfg: Config, s: State, ev: Event) returns (base: seq<Node>, i: nat, st: NodeState)
    requires Inv(cfg, s) && ValidEvent(cfg, ev)
    requires Apply(cfg, s, ev) != s
    ensures Balanced(cfg, s)
    ensures GoodNodes(cfg, base) && i < |base| && base[i] in s.nodes
    ensures |base| >= |s.nodes|
    ensures Sum(Waits, base, |base|) == Sum(Waits, s.nodes, |s.nodes|)
    ensures Sum(Rank, base, |base|) == Sum(Rank, s.nodes, |s.nodes|) + 3 * (|base| - |s.nodes|)
    ensures st.Succeeded? || st.Failed?
    ensures base[i].state.Waiting? || base[i].state.Unresponsive? || (st.Failed? && base[i].state.NotContacted?)
    ensures Apply(cfg, s, ev).nodes == base[i := base[i].(state := st)]
    ensures Apply(cfg, s, ev).inFlight == s.inFlight - Weight(Waits, base[i])
    ensures Apply(cfg, s, ev).stats == (if !base[i].state.Waiting? then s.stats
      else if st.Failed? then s.stats.(failure := s.stats.failure + 1) else s.stats.(success := s.stats.success + 1))
    ensures base == if ev.Response? then InsertAll(cfg, s.nodes, ev.closer) else s.nodes
  {
    var n := s.nodes[IndexOf(s.nodes, ev.node)];
    if ev.Response? {
      base, st := InsertAll(cfg, s.nodes, ev.closer), Succeeded;
      InsertAllKeepsGood(cfg, s.nodes, ev.closer);
      InsertAllSums(cfg, s.nodes, ev.closer);
      InsertAllMembers(cfg, s.nodes, ev.closer, n);
    } else {
      base, st := s.nodes, Failed;
    }
    IndexOfMember(cfg.target, base, n);
    i := IndexOf(base, n.key);
  }

  lemma ReplyBalanced(cfg: Config, s: State, a: State, base: seq<Node>, i: nat, st: NodeState, u: nat)
    requires Balanced(cfg, s) && GoodNodes(cfg, base) && i < |base| && |base| >= |s.nodes|
    requires Sum(Waits, base, |base|) == Sum(Waits, s.nodes, |s.nodes|)
    requires Sum(Rank, base, |base|) == Sum(Rank, s.nodes, |s.nodes|) + 3 * (|base| - |s.nodes|)
    requires st.Succeeded? || st.Failed?
    requires base[i].state.Waiting? || base[i].state.Unresponsive? || base[i].state.NotContacted?
    requires a.nodes == base[i := base[i].(state := st)]
    requires a.inFlight == s.inFlight - Weight(Waits, base[i])
    requires a.stats == (if !base[i].state.Waiting? then s.stats
      else if st.Failed? then s.stats.(failure := s.stats.failure + 1) else s.stats.(success := s.stats.success + 1))
    requires a.finished == s.finished && a.deadline == s.deadline
    ensures Inv(cfg, a) && Remaining(u, a) < Remaining(u, s)
  {
    hide GoodNodes, Sum, Distance;
    UpdateFacts(cfg, base, i, st);
  }

  /** An event keeps the invariant, and spends at least one of the remaining changes unless ignored. */
  lemma ApplyKeepsInv(cfg: Config, s: State, ev: Event, u: nat)
    requires Inv(cfg, s) && ValidEvent(cfg, ev)
    ensures var a := Apply(cfg, s, ev); Inv(cfg, a) && (a == s || Remaining(u, a) < Remaining(u, s))
  {
    var a := Apply(cfg, s, ev);
    assert a.finished == s.finished && a.deadline == s.deadline;
    if a != s {
      var base, i, st := ApplyShape(cfg, s, ev);
      hide *;
      ReplyBalanced(cfg, s, a, base, i, st, u);
    }
  }

  /** An advance of a running query is its event followed by a walk. */
  lemma RunningAdvance(cfg: Config, s: State, now: Instant, ev: Event)
    requires Inv(cfg, s) && ValidEvent(cfg, ev) && !s.finished && !ev.Cancel?
    ensures Inv(cfg, Apply(cfg, s, ev))
    ensures Advance(cfg, s, now, ev) == Walk(cfg, now, Apply(cfg, s, ev))
    ensures Apply(cfg, s, ev).stats.requests == s.stats.requests && !Apply(cfg, s, ev).finished
  {
    assert Apply(cfg, s, ev).stats.requests == s.stats.requests && !Apply(cfg, s, ev).finished;
    hide Apply, Walk, GoodNodes, Balanced;
    ApplyKeepsInv(cfg, s, ev, 0);
  }

  lemma SweepKeepsInv(cfg: Config, now: Instant, s: State, j: nat, u: nat)
    requires Inv(cfg, s) && j <= |s.nodes|
    ensures var w := Swept(now, s, j);
      && Inv(cfg, w)
      && Remaining(u, w) == Remaining(u, s) - Sum(Expiring(now), s.nodes, j)
      && (Sum(Expiring(now), s.nodes, j) == 0 ==> w == s)
  {
    hide GoodNodes;
    var w := Swept(now, s, j);
    SumExpire(now, s.nodes, j, |s.nodes|);
    SameKeysKeepGood(cfg, s.nodes, w.nodes);
    if Sum(Expiring(now), s.nodes, j) == 0 {
      NoneExpires(now, s.nodes, j);
    }
  }

  lemma NoneExpires(now: Instant, nodes: seq<Node>, j: nat)
    requires j <= |nodes| && Sum(Expiring(now), nodes, j) == 0
    ensures Expire(now, nodes, j) == nodes
  {
    forall i | 0 <= i < j ensures Expire(now, nodes, j)[i] == nodes[i] {
      SumZero(Expiring(now), nodes, j, i);
    }
  }

  lemma DispatchKeepsInv(cfg: Config, now: Instant, s: State, j: nat, u: nat)
    requires Inv(cfg, s) && now > 0 && j < |s.nodes|
    requires s.nodes[j].state.NotContacted? && s.inFlight < cfg.concurrency
    ensures Inv(cfg, Dispatched(cfg, now, s, j)) && Remaining(u, Dispatched(cfg, now, s, j)) == Remaining(u, s) - 1
  {
    UpdateFacts(cfg, s.nodes, j, Waiting(now + cfg.requestTimeout));
    hide GoodNodes, Sum;
  }

  /** Lookup accounting over one advance, and the measure that bounds a run: an advance that changes
      anything but the recorded wake-up time spends one of the remaining changes. */
  lemma AdvanceKeepsInv(cfg: Config, s: State, now: Instant, ev: Event, u: nat)
    requires Inv(cfg, s) && now > 0 && ValidEvent(cfg, ev)
    ensures var s' := Advance(cfg, s, now, ev).0;
      && Inv(cfg, s')
      && (s' == s.(nextDue := s'.nextDue) || Remaining(u, s') < Remaining(u, s))
  {
    if !s.finished && !ev.Cancel? {
      ApplyKeepsInv(cfg, s, ev, u);
      WalkKeepsInv(cfg, Apply(cfg, s, ev), now, u);
    }
  }

  /** How a walk can end, in terms of the state it has swept. */
  lemma WalkCases(cfg: Config, now: Instant, s: State) returns (j: nat, w: State)
    requires cfg.Valid() && Fits(cfg.target, s.nodes)
    ensures j == StopIndex(cfg, now, s, 0) && w == Swept(now, s, j) && Fits(cfg.target, w.nodes)
    ensures
      var (s', out) := Walk(cfg, now, s);
      || (s', out) == Ended(cfg, now, w)
      || (out.Dispatches() && j < |w.nodes| && w.nodes[j].state.NotContacted? && w.inFlight < cfg.concurrency
          && s' == Dispatched(cfg, now, w, j) && out.node == w.nodes[j].key)
      || (out.Waits() && s' == w.(nextDue := EarliestDeadline(w.nodes, |w.nodes|)))
  {
    j := StopIndex(cfg, now, s, 0);
    w := Swept(now, s, j);
  }

  lemma WalkKeepsInv(cfg: Config, a: State, now: Instant, u: nat)
    requires Inv(cfg, a) && now > 0 && !a.finished
    ensures var s' := Walk(cfg, now, a).0;
      && Inv(cfg, s')
      && (s' == a.(nextDue := s'.nextDue) || Remaining(u, s') < Remaining(u, a))
  {
    var j, w := WalkCases(cfg, now, a);
    hide GoodNodes, Walk, Sum, StopIndex, Swept, Results, Distance, EarliestDeadline, Dispatched;
    SweepKeepsInv(cfg, now, a, j, u);
    if Walk(cfg, now, a).1.Dispatches() {
      DispatchKeepsInv(cfg, now, w, j, u);
    }
  }
}
