/** The lookup as the program runs it: an iterator and a query object updated in place, each proved
    against the specification in `Lookup`. */
module Query {
  import opened Keys
  import opened Clock
  import opened Lookup
  import opened LookupProofs
  import opened LookupResults

  /** The nodes discovered so far, kept in ascending distance from the target. */
  class ClosestNodesIter {
    const target: Bits
    var nodes: seq<Node>

    ghost predicate Valid()
      reads this
    {
      Ascending(target, nodes)
    }

    constructor (target: Bits)
      ensures this.target == target && nodes == [] && Valid()
    {
      this.target := target;
      nodes := [];
    }

    /** Takes note of a node; an entry already held for its key is kept. */
    method Add(k: Bits)
      requires Valid() && |k| == |target|
      modifies this
      ensures Valid() && nodes == Insert(target, old(nodes), k)
    {
      AscendingFits(target, nodes);
      hide Distance, Insert, Ascending;
      InsertAscending(target, nodes, k);
      var i := |nodes|;
      while i > 0 && Distance(nodes[i - 1].key, target) >= Distance(k, target)
        invariant 0 <= i <= |nodes| && Fits(target, nodes)
        invariant forall x :: i <= x < |nodes| ==> Distance(nodes[x].key, target) >= Distance(k, target) && nodes[x].key != k
      {
        if nodes[i - 1].key == k {
          InsertKnown(target, nodes, k, i - 1);
          return;
        }
        i := i - 1;
      }
      InsertAt(target, nodes, k, i);
      nodes := nodes[..i] + [Node(k, NotContacted)] + nodes[i..];
    }

    /** The position of the node with the given key. */
    method Find(k: Bits) returns (i: nat, found: bool)
      ensures i == IndexOf(nodes, k) && found == (i < |nodes|)
    {
      i := 0;
      while i < |nodes| && nodes[i].key != k
        invariant i <= |nodes|
        invariant forall x :: 0 <= x < i ==> nodes[x].key != k
      {
        i := i + 1;
      }
      found := i < |nodes|;
    }

    /** Replaces the state of the node at a position. */
    method SetState(i: nat, st: NodeState)
      requires Valid() && i < |nodes|
      modifies this
      ensures Valid() && nodes == old(nodes)[i := old(nodes)[i].(state := st)]
    {
      nodes := nodes[i := nodes[i].(state := st)];
      assert forall x :: 0 <= x < |nodes| ==> nodes[x].key == old(nodes)[x].key;
    }
  }

  class Query {
    const cfg: Config
    const iter: ClosestNodesIter
    var stats: Stats
    var finished: bool
    var deadline: Instant
    var nextDue: Instant
    var targetNodes: seq<Bits>
    var inFlight: int

    ghost predicate Valid()
      reads this, iter
    {
      cfg.Valid() && iter.target == cfg.target && iter.Valid()
    }

    /** The query's state as a value. */
    ghost function Contents(): State
      reads this, iter
    {
      State(iter.nodes, inFlight, stats, finished, deadline, nextDue, targetNodes)
    }

    /** A query seeded with the known closest nodes, self left out. */
    constructor (cfg: Config, seeds: seq<Bits>)
      requires cfg.Valid()
      requires forall i :: 0 <= i < |seeds| ==> |seeds[i]| == |cfg.target|
      ensures this.cfg == cfg && Valid() && fresh(iter) && Contents() == Start(cfg, seeds)
    {
      var it := new ClosestNodesIter(cfg.target);
      AddAll(it, cfg, seeds);
      this.cfg := cfg;
      iter := it;
      stats := Stats(0, 0, 0, 0, 0);
      finished := false;
      deadline := 0;
      nextDue := 0;
      targetNodes := [];
      inFlight := 0;
    }

    /** Adds every node but self. */
    static method AddAll(it: ClosestNodesIter, cfg: Config, keys: seq<Bits>)
      requires cfg.Valid() && it.target == cfg.target && it.Valid()
      requires forall i :: 0 <= i < |keys| ==> |keys[i]| == |cfg.target|
      modifies it
      ensures it.Valid() && it.nodes == InsertAll(cfg, old(it.nodes), keys)
    {
      hide Distance, Insert, Ascending;
      var i := 0;
      assert keys[..0] == [];
      while i < |keys|
        invariant i <= |keys| && it.Valid()
        invariant it.nodes == InsertAll(cfg, old(it.nodes), keys[..i])
      {
        assert keys[..i + 1][..i] == keys[..i];
        if keys[i] != cfg.self {
          it.Add(keys[i]);
        }
        i := i + 1;
      }
      assert keys[..i] == keys;
    }

    method Advance(now: Instant, ev: Event) returns (out: Outcome)
      requires Valid() && ValidEvent(cfg, ev)
      modifies this, iter
      ensures Valid()
      ensures (Contents(), out) == Lookup.Advance(cfg, old(Contents()), now, ev)
    {
      if finished {
        return Finished(targetNodes, stats);
      }
      match ev {
        case Cancel =>
          MarkFinished(now);
          return Finished(targetNodes, stats);
        case Response(node, closer) => OnNodeResponse(node, closer);
        case Failure(node) => OnNodeFailure(node);
        case Poll =>
      }
      out := DoWalk(now);
    }

    method MarkFinished(now: Instant)
      requires Valid()
      modifies this
      ensures Valid() && Contents() == Finish(cfg, now, old(Contents()))
    {
      ghost var nodes := iter.nodes;
      assert Fits(cfg.target, nodes);
      hide Distance, CommonPrefixLength, Ascending;
      finished := true;
      nextDue := 0;
      if stats.end == 0 {
        stats := stats.(end := now);
      }
      targetNodes := [];
      var i := 0;
      while i < |iter.nodes|
        invariant i <= |nodes| && iter.nodes == nodes
        invariant targetNodes == Reportable(cfg, nodes, i)
        invariant !cfg.coverage ==> |targetNodes| < cfg.numResults
        invariant finished && nextDue == 0 && inFlight == old(inFlight) && deadline == old(deadline)
        invariant stats == old(stats).(end := if old(stats).end == 0 then now else old(stats).end)
      {
        var n := iter.nodes[i];
        if n.state.Succeeded? {
          if cfg.coverage {
            if cfg.Inside(n.key) {
              targetNodes := targetNodes + [n.key];
            }
          } else {
            targetNodes := targetNodes + [n.key];
            if |targetNodes| >= cfg.numResults {
              assert targetNodes == Reportable(cfg, nodes, i + 1);
              ReportablePrefix(cfg, nodes, i + 1, |nodes|);
              assert Results(cfg, nodes) == targetNodes;
              return;
            }
          }
        }
        i := i + 1;
      }
    }

    method OnNodeResponse(node: Bits, closer: seq<Bits>)
      requires Valid() && ValidEvent(cfg, Response(node, closer))
      modifies this, iter
      ensures Valid() && Contents() == Apply(cfg, old(Contents()), Response(node, closer))
    {
      var i, found := iter.Find(node);
      if !found {
        return;
      }
      match iter.nodes[i].state {
        case Waiting(_) =>
          inFlight := inFlight - 1;
          stats := stats.(success := stats.success + 1);
        case Unresponsive =>
        case _ => return;
      }
      AddAll(iter, cfg, closer);
      var j, known := iter.Find(node);
      if known {
        iter.SetState(j, Succeeded);
      }
    }

    method OnNodeFailure(node: Bits)
      requires Valid() && ValidEvent(cfg, Failure(node))
      modifies this, iter
      ensures Valid() && Contents() == Apply(cfg, old(Contents()), Failure(node))
    {
      var i, found := iter.Find(node);
      if !found {
        return;
      }
      match iter.nodes[i].state {
        case Waiting(_) =>
          inFlight := inFlight - 1;
          stats := stats.(failure := stats.failure + 1);
        case Unresponsive =>
        case NotContacted =>
        case _ => return;
      }
      iter.SetState(i, Failed);
    }

    /** The earliest deadline of a node waited for. */
    method EarliestNodeDeadline() returns (earliest: Instant)
      ensures earliest == EarliestDeadline(iter.nodes, |iter.nodes|)
    {
      earliest := 0;
      var i := 0;
      while i < |iter.nodes|
        invariant i <= |iter.nodes| && earliest == EarliestDeadline(iter.nodes, i)
      {
        var st := iter.nodes[i].state;
        if st.Waiting? && (earliest == 0 || st.deadline < earliest) {
          earliest := st.deadline;
        }
        i := i + 1;
      }
    }

    /** Marks the node at index i as unresponsive, which frees its slot. */
    method GiveUpOn(i: nat)
      requires Valid() && i < |iter.nodes|
      modifies this, iter
      ensures Valid()
      ensures var w := old(Contents());
        Contents() == w.(nodes := w.nodes[i := w.nodes[i].(state := Unresponsive)], inFlight := w.inFlight - 1,
                         stats := w.stats.(failure := w.stats.failure + 1))
    {
      iter.SetState(i, Unresponsive);
      inFlight := inFlight - 1;
      stats := stats.(failure := stats.failure + 1);
    }

    /** Records that a request goes out to the node at index i. */
    method Contact(now: Instant, i: nat)
      requires Valid() && i < |iter.nodes|
      modifies this, iter
      ensures Valid() && Contents() == Dispatched(cfg, now, old(Contents()), i)
    {
      iter.SetState(i, Waiting(now + cfg.requestTimeout));
      inFlight := inFlight + 1;
      stats := stats.(requests := stats.requests + 1);
      if stats.start == 0 {
        stats := stats.(start := now);
        deadline := stats.start + cfg.timeout;
      }
    }

    /** Visits the node at index i: acts on it, or tells the walk to go on or to stop for lack of slots. */
    method Visit(now: Instant, i: nat, c: Counts, ghost s: State) returns (c': Counts, verdict: Verdict)
      requires Valid() && Fits(cfg.target, s.nodes) && i < |s.nodes|
      requires Contents() == Swept(now, s, i) && Counted(cfg, now, s, i, c)
      requires StopIndex(cfg, now, s, 0) == StopIndex(cfg, now, s, i)
      modifies this, iter
      ensures Valid()
      ensures verdict.Continue? ==> Contents() == Swept(now, s, i + 1) && Counted(cfg, now, s, i + 1, c')
      ensures verdict.Continue? ==> !StopsAt(cfg, now, s, i)
      ensures verdict.Full? ==> c' == c && Contents() == Swept(now, s, i) && Blocked(cfg, now, s, i)
      ensures verdict.Act? ==> (Contents(), verdict.out) == Walk(cfg, now, s)
    {
      SweptSoFar(cfg, now, s, i);
      WalkStep(cfg, now, s, i);
      hide Walk, Distance, CommonPrefixLength, Ascending, Sum, Swept, StopIndex, Finish, Dispatched;
      var n := iter.nodes[i];
      c' := c;
      verdict := Continue;
      match n.state {
        case Waiting(d) =>
          if now > d {
            GiveUpOn(i);
          } else if inFlight >= cfg.concurrency {
            verdict := Full;
          } else {
            c' := c.(progressing := true);
          }
        case Succeeded =>
          c' := c.(successes := c.successes + 1);
          if cfg.coverage {
            if cfg.Inside(n.key) {
              c' := c'.(inside := c.inside + 1);
            }
          } else if !c.progressing && c'.successes >= cfg.numResults {
            WalkEnds(cfg, now, s, i);
            MarkFinished(now);
            verdict := Act(Finished(targetNodes, stats));
          }
        case NotContacted =>
          if cfg.coverage && !cfg.Inside(n.key) && !c.progressing && (c.inside > 0 || c.successes >= cfg.numResults) {
            WalkEnds(cfg, now, s, i);
            MarkFinished(now);
            verdict := Act(Finished(targetNodes, stats));
          } else if inFlight < cfg.concurrency {
            WalkAsks(cfg, now, s, i);
            Contact(now, i);
            verdict := Act(if cfg.findCloser then AskCloser(n.key, stats) else SendMessage(n.key, stats));
          } else {
            verdict := Full;
          }
        case Unresponsive =>
        case Failed =>
      }
    }

    /** Walks the nodes in order and acts at the first thing there is to do. */
    method DoWalk(now: Instant) returns (out: Outcome)
      requires Valid()
      modifies this, iter
      ensures Valid()
      ensures (Contents(), out) == Walk(cfg, now, old(Contents()))
    {
      ghost var s := Contents();
      var c := Counts(0, 0, false);
      var atCapacityWaiting := false;
      var i := 0;
      assert Fits(cfg.target, s.nodes) && Swept(now, s, 0) == s by {
        assert Expire(now, s.nodes, 0) == s.nodes;
      }
      assert Counted(cfg, now, s, 0, c);
      hide Walk, Distance, CommonPrefixLength, Ascending, Sum, Swept, StopIndex, StopsAt, Finish, Blocked, Counted, EarliestDeadline;
      while i < |iter.nodes| && !atCapacityWaiting
        invariant i <= |s.nodes| && |iter.nodes| == |s.nodes|
        invariant Valid() && Contents() == Swept(now, s, i) && Counted(cfg, now, s, i, c)
        invariant StopIndex(cfg, now, s, 0) == StopIndex(cfg, now, s, i)
        invariant atCapacityWaiting ==> i < |s.nodes| && Blocked(cfg, now, s, i)
        decreases |s.nodes| - i, !atCapacityWaiting
      {
        var verdict;
        c, verdict := Visit(now, i, c, s);
        match verdict {
          case Act(o) => return o;
          case Full => atCapacityWaiting := true;
          case Continue =>
            SweptSoFar(cfg, now, s, i + 1);
            i := i + 1;
        }
      }
      out := AfterWalk(now, atCapacityWaiting, i, s);
    }

    /** Reports that the query waits, or that it is finished because nothing is left to wait for. */
    method AfterWalk(now: Instant, atCapacityWaiting: bool, ghost i: nat, ghost s: State) returns (out: Outcome)
      requires Valid() && Fits(cfg.target, s.nodes) && i <= |s.nodes| && Contents() == Swept(now, s, i)
      requires StopIndex(cfg, now, s, 0) == StopIndex(cfg, now, s, i)
      requires if atCapacityWaiting then Blocked(cfg, now, s, i) else i == |s.nodes|
      modifies this
      ensures Valid()
      ensures (Contents(), out) == Walk(cfg, now, s)
    {
      SweptSoFar(cfg, now, s, i);
      if atCapacityWaiting {
        WalkBlocks(cfg, now, s, i);
        hide Walk, Swept, Ascending;
        nextDue := EarliestNodeDeadline();
        return WaitingAtCapacity(stats, deadline, nextDue);
      }
      WalkRunsOut(cfg, now, s);
      hide Walk, Swept, Ascending;
      if inFlight > 0 {
        nextDue := EarliestNodeDeadline();
        return WaitingWithCapacity(stats, deadline, nextDue);
      }
      MarkFinished(now);
      out := Finished(targetNodes, stats);
    }
  }

  /** What the walk counts as it goes. */
  datatype Counts = Counts(successes: nat, inside: nat, progressing: bool)

  datatype Verdict = Continue | Full | Act(out: Outcome)

  ghost predicate Counted(cfg: Config, now: Instant, s: State, i: nat, c: Counts)
    requires i <= |s.nodes|
  {
    && c.successes == Sum(Succeeds, s.nodes, i)
    && (cfg.coverage ==> c.inside == Sum(Enters(cfg), s.nodes, i))
    && (c.progressing <==> Sum(Outstanding(now), s.nodes, i) > 0)
  }

  /** A known key leaves the nodes as they are. */
  lemma {:induction false} InsertKnown(t: Bits, nodes: seq<Node>, k: Bits, i: nat)
    requires Ascending(t, nodes) && i < |nodes| && nodes[i].key == k
    ensures Insert(t, nodes, k) == nodes
    decreases |nodes|
  {
    hide Distance;
    var m := |nodes| - 1;
    if i < m {
      DistinctKeys(t, nodes, i, m);
      assert Distance(nodes[i].key, t) < Distance(nodes[m].key, t);
      InsertKnown(t, nodes[..m], k, i);
    }
  }

  /** A new key goes between the nodes nearer than it and those farther. */
  lemma {:induction false} InsertAt(t: Bits, nodes: seq<Node>, k: Bits, i: nat)
    requires Ascending(t, nodes) && |k| == |t| && i <= |nodes|
    requires i > 0 ==> Distance(nodes[i - 1].key, t) < Distance(k, t)
    requires forall x :: i <= x < |nodes| ==> Distance(nodes[x].key, t) >= Distance(k, t) && nodes[x].key != k
    ensures Insert(t, nodes, k) == nodes[..i] + [Node(k, NotContacted)] + nodes[i..]
    decreases |nodes|
  {
    hide Distance;
    if i < |nodes| {
      var front, last := nodes[..|nodes| - 1], nodes[|nodes| - 1];
      assert nodes == front + [last] && Ascending(t, front);
      assert Insert(t, nodes, k) == Insert(t, front, k) + [last];
      hide Ascending, Insert;
      InsertAt(t, front, k, i);
      Spliced(front, last, Node(k, NotContacted), i);
    } else {
      assert nodes[..i] == nodes && nodes[i..] == [];
    }
  }

  lemma AscendingFits(t: Bits, nodes: seq<Node>)
    requires Ascending(t, nodes)
    ensures Fits(t, nodes)
  {
  }

  lemma Spliced<T>(s: seq<T>, last: T, x: T, i: nat)
    requires i <= |s|
    ensures s[..i] + [x] + s[i..] + [last] == (s + [last])[..i] + [x] + (s + [last])[i..]
  {
  }

  // ---------- One step of the walk ----------

  lemma SweptSoFar(cfg: Config, now: Instant, s: State, i: nat)
    requires cfg.Valid() && Fits(cfg.target, s.nodes) && i <= |s.nodes|
    ensures Swept(now, s, i).inFlight == InFlightAt(now, s, i)
    ensures forall k :: i <= k < |s.nodes| ==> Swept(now, s, i).nodes[k] == s.nodes[k] && |s.nodes[k].key| == |cfg.target|
    ensures |Swept(now, s, i).nodes| == |s.nodes| && Fits(cfg.target, Swept(now, s, i).nodes)
  {
  }

  lemma WalkStep(cfg: Config, now: Instant, s: State, i: nat)
    requires cfg.Valid() && Fits(cfg.target, s.nodes) && i < |s.nodes|
    ensures Sum(Succeeds, s.nodes, i + 1) == Sum(Succeeds, s.nodes, i) + Weight(Succeeds, s.nodes[i])
    ensures Sum(Enters(cfg), s.nodes, i + 1) == Sum(Enters(cfg), s.nodes, i) + Weight(Enters(cfg), s.nodes[i])
    ensures Sum(Outstanding(now), s.nodes, i + 1) == Sum(Outstanding(now), s.nodes, i) + Weight(Outstanding(now), s.nodes[i])
    ensures !StopsAt(cfg, now, s, i) ==> StopIndex(cfg, now, s, i) == StopIndex(cfg, now, s, i + 1)
    ensures var w := Swept(now, s, i);
      Swept(now, s, i + 1) ==
        if Expired(now, s.nodes[i].state) then
          w.(nodes := w.nodes[i := w.nodes[i].(state := Unresponsive)], inFlight := w.inFlight - 1,
             stats := w.stats.(failure := w.stats.failure + 1))
        else w
  {
    var w := Swept(now, s, i);
    assert Expire(now, s.nodes, i + 1) ==
      if Expired(now, s.nodes[i].state) then w.nodes[i := w.nodes[i].(state := Unresponsive)] else w.nodes;
  }

  // ---------- The four ways a walk ends ----------

  ghost predicate Blocked(cfg: Config, now: Instant, s: State, j: nat)
    requires cfg.Valid() && Fits(cfg.target, s.nodes) && j <= |s.nodes|
  {
    && j < |s.nodes| && StopsAt(cfg, now, s, j) && InFlightAt(now, s, j) >= cfg.concurrency
    && (s.nodes[j].state.Waiting? || (s.nodes[j].state.NotContacted? && !RegionExhausted(cfg, now, s, j)))
  }

  lemma WalkEnds(cfg: Config, now: Instant, s: State, j: nat)
    requires cfg.Valid() && Fits(cfg.target, s.nodes) && j < |s.nodes| && StopIndex(cfg, now, s, 0) == StopIndex(cfg, now, s, j)
    requires StopsAt(cfg, now, s, j)
    requires s.nodes[j].state.Succeeded? || (s.nodes[j].state.NotContacted? && RegionExhausted(cfg, now, s, j))
    ensures Fits(cfg.target, Swept(now, s, j).nodes) && Walk(cfg, now, s) == Ended(cfg, now, Swept(now, s, j))
  {
  }

  lemma WalkAsks(cfg: Config, now: Instant, s: State, j: nat)
    requires cfg.Valid() && Fits(cfg.target, s.nodes) && j < |s.nodes| && StopIndex(cfg, now, s, 0) == StopIndex(cfg, now, s, j)
    requires s.nodes[j].state.NotContacted? && !RegionExhausted(cfg, now, s, j) && InFlightAt(now, s, j) < cfg.concurrency
    ensures var d := Dispatched(cfg, now, Swept(now, s, j), j);
      Walk(cfg, now, s) == (d, if cfg.findCloser then AskCloser(s.nodes[j].key, d.stats) else SendMessage(s.nodes[j].key, d.stats))
  {
  }

  lemma WalkBlocks(cfg: Config, now: Instant, s: State, j: nat)
    requires cfg.Valid() && Fits(cfg.target, s.nodes) && j <= |s.nodes| && StopIndex(cfg, now, s, 0) == StopIndex(cfg, now, s, j)
    requires Blocked(cfg, now, s, j)
    ensures var w := Swept(now, s, j);
      var s' := w.(nextDue := EarliestDeadline(w.nodes, |w.nodes|));
      Walk(cfg, now, s) == (s', WaitingAtCapacity(s'.stats, s'.deadline, s'.nextDue))
  {
  }

  lemma WalkRunsOut(cfg: Config, now: Instant, s: State)
    requires cfg.Valid() && Fits(cfg.target, s.nodes) && StopIndex(cfg, now, s, 0) == |s.nodes|
    ensures var w := Swept(now, s, |s.nodes|);
      var s' := w.(nextDue := EarliestDeadline(w.nodes, |w.nodes|));
      && Fits(cfg.target, w.nodes)
      && Walk(cfg, now, s) == if w.inFlight > 0 then (s', WaitingWithCapacity(s'.stats, s'.deadline, s'.nextDue)) else Ended(cfg, now, w)
  {
  }
}
