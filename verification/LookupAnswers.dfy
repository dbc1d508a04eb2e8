/** A query over a whole keyspace whose nodes all answer in time finishes with all of them. */
module LookupAnswers {
  import opened Keys
  import opened Clock
  import opened Lookup
  import opened LookupProofs
  import LookupLaws
  import LookupResults
  import PoolProofs

  /** Every node has answered, is waited for within its deadline at t, or is still to be asked. */
  ghost predicate Lively(cfg: Config, q: State, t: Instant) {
    && Inv(cfg, q) && !q.finished
    && forall n :: n in q.nodes ==> n.state.NotContacted? || n.state.Succeeded? || (n.state.Waiting? && n.state.deadline >= t)
  }

  /** A query of every node there is, which replies only count for. */
  predicate OfAll(cfg: Config) {
    cfg.Valid() && cfg.coverage && cfg.prefixLen == 0
  }

  ghost predicate SameKeys(a: seq<Node>, b: seq<Node>) {
    |a| == |b| && forall i :: 0 <= i < |a| ==> a[i].key == b[i].key
  }

  /** Some node is waited for while anything is in flight. */
  lemma SomeWaits(cfg: Config, q: State) returns (i: nat)
    requires Inv(cfg, q) && q.inFlight > 0
    ensures i < |q.nodes| && q.nodes[i].state.Waiting?
  {
    i := SumPositive(Waits, q.nodes, |q.nodes|);
  }

  /** What a reply that names nobody changes before the walk: one node has answered. */
  lemma Answered(cfg: Config, q: State, i: nat)
    requires Inv(cfg, q) && i < |q.nodes| && q.nodes[i].state.Waiting?
    ensures cfg.Valid() && Ascending(cfg.target, q.nodes) && ValidEvent(cfg, Response(q.nodes[i].key, []))
    ensures var a := Apply(cfg, q, Response(q.nodes[i].key, []));
      && Inv(cfg, a) && a.nodes == q.nodes[i := q.nodes[i].(state := Succeeded)]
      && a.finished == q.finished && a.deadline == q.deadline && a.inFlight == q.inFlight - 1
  {
    var ev := Response(q.nodes[i].key, []);
    assert InsertAll(cfg, q.nodes, []) == q.nodes;
    OneIndex(cfg.target, q.nodes, IndexOf(q.nodes, q.nodes[i].key), i);
    ApplyKeepsInv(cfg, q, ev, 0);
    hide Distance, Ascending, Balanced, InsertAll;
  }

  /** No walk gives up on a node that answers in time. */
  lemma {:induction false} NothingExpires(t: Instant, nodes: seq<Node>, j: nat)
    requires j <= |nodes| && forall n :: n in nodes ==> !Expired(t, n.state)
    ensures Sum(Expiring(t), nodes, j) == 0
  {
    if j > 0 {
      NothingExpires(t, nodes, j - 1);
      assert nodes[j - 1] in nodes;
    }
  }

  predicate AskedNow(cfg: Config, n: Node, n': Node, t: Instant) {
    n.state.NotContacted? && n' == n.(state := Waiting(t + cfg.requestTimeout))
  }

  /** A walk of a lively query changes at most the node it asks. */
  lemma LivelyWalk(cfg: Config, a: State, t: Instant)
    requires Lively(cfg, a, t)
    ensures cfg.Valid() && Fits(cfg.target, a.nodes)
    ensures var (q', out) := Walk(cfg, t, a);
      && SameKeys(a.nodes, q'.nodes)
      && (out.Finished? ==> q'.nodes == a.nodes)
      && (forall i :: 0 <= i < |a.nodes| ==> q'.nodes[i] == a.nodes[i] || AskedNow(cfg, a.nodes[i], q'.nodes[i], t))
      && (!out.Finished? && a.deadline >= t ==> q'.deadline >= t)
      && (out.Dispatches() && a.stats.start == 0 ==> q'.deadline >= t)
  {
    var j, w := WalkCases(cfg, t, a);
    NothingExpires(t, a.nodes, j);
    SweepKeepsInv(cfg, t, a, j, 0);
    assert w == a;
    hide StopIndex, Swept, Inv, InFlightAt;
  }

  /** The next node to answer: the query goes on, one answer nearer the end; or it finishes, with that node
      the last to answer. */
  lemma OneMoreAnswer(cfg: Config, q: State, t: Instant, i: nat)
    requires Lively(cfg, q, t) && OfAll(cfg) && t > 0 && i < |q.nodes| && q.nodes[i].state.Waiting?
    ensures ValidEvent(cfg, Response(q.nodes[i].key, []))
    ensures var (q', out) := Advance(cfg, q, t, Response(q.nodes[i].key, []));
      && (out.Finished? ==> LastWaits(q.nodes, i))
      && (!out.Finished? ==>
            && Lively(cfg, q', t) && SameKeys(q.nodes, q'.nodes) && q'.inFlight > 0
            && (q.deadline >= t ==> q'.deadline >= t)
            && Sum(Rank, q'.nodes, |q'.nodes|) < Sum(Rank, q.nodes, |q.nodes|))
  {
    var ev := Response(q.nodes[i].key, []);
    Answered(cfg, q, i);
    hide *;
    LivelyInv(cfg, q, t);
    var a := Apply(cfg, q, ev);
    AnsweredLively(cfg, q, a, t, i);
    RunningAdvance(cfg, q, t, ev);
    LivelyWalk(cfg, a, t);
    AdvanceKeepsInv(cfg, q, t, ev, |q.nodes|);
    PoolProofs.StillWaits(cfg, q, t, ev);
    if Advance(cfg, q, t, ev).1.Finished? {
      OfAllHolds(cfg);
      LookupResults.CoverageComplete(cfg, q, t, ev, []);
      AllResolved(cfg, q, a.nodes, i, t);
    } else {
      StaysLively(cfg, a, Advance(cfg, q, t, ev).0, t);
      RankSpent(cfg, q, a, Advance(cfg, q, t, ev).0, i, t);
    }
  }

  /** A node that answers by naming others, one of them unknown: the query goes on, and knows them too. */
  lemma AnswerNames(cfg: Config, q: State, t: Instant, i: nat, closer: seq<Bits>, k: Bits)
    requires Lively(cfg, q, t) && OfAll(cfg) && t > 0 && i < |q.nodes| && q.nodes[i].state.Waiting?
    requires forall x :: 0 <= x < |closer| ==> |closer[x]| == |cfg.target|
    requires k in closer && k != cfg.self && !Knows(q.nodes, k)
    ensures ValidEvent(cfg, Response(q.nodes[i].key, closer))
    ensures var (q', out) := Advance(cfg, q, t, Response(q.nodes[i].key, closer));
      && !out.Finished? && Lively(cfg, q', t) && q'.inFlight > 0 && (q.deadline >= t ==> q'.deadline >= t)
      && forall x :: Knows(q'.nodes, x) <==> Knows(q.nodes, x) || (x in closer && x != cfg.self)
  {
    var ev := Response(q.nodes[i].key, closer);
    var a := Named(cfg, q, t, i, closer, k);
    hide *;
    LivelyInv(cfg, q, t);
    RunningAdvance(cfg, q, t, ev);
    LivelyWalk(cfg, a, t);
    AdvanceKeepsInv(cfg, q, t, ev, 0);
    PoolProofs.StillWaits(cfg, q, t, ev);
    if Advance(cfg, q, t, ev).1.Finished? {
      OfAllHolds(cfg);
      LookupResults.CoverageComplete(cfg, q, t, ev, []);
      OpenNode(a.nodes, k);
    } else {
      StaysLively(cfg, a, Advance(cfg, q, t, ev).0, t);
      KnowsTheSame(a.nodes, Advance(cfg, q, t, ev).0.nodes);
    }
  }

  lemma OpenNode(nodes: seq<Node>, k: Bits)
    requires Node(k, NotContacted) in nodes
    ensures exists n :: n in nodes && HasPrefix(n.key, []) && !LookupResults.Resolved(n.state)
  {
    assert HasPrefix(Node(k, NotContacted).key, []);
  }

  lemma KnowsTheSame(a: seq<Node>, b: seq<Node>)
    requires SameKeys(a, b)
    ensures forall k :: Knows(a, k) <==> Knows(b, k)
  {
  }

  /** What a reply that names others changes before the walk. */
  lemma Named(cfg: Config, q: State, t: Instant, i: nat, closer: seq<Bits>, k: Bits) returns (a: State)
    requires Lively(cfg, q, t) && i < |q.nodes| && q.nodes[i].state.Waiting?
    requires forall x :: 0 <= x < |closer| ==> |closer[x]| == |cfg.target|
    requires k in closer && k != cfg.self && !Knows(q.nodes, k)
    ensures cfg.Valid() && Ascending(cfg.target, q.nodes) && ValidEvent(cfg, Response(q.nodes[i].key, closer))
    ensures a == Apply(cfg, q, Response(q.nodes[i].key, closer)) && Lively(cfg, a, t) && a.deadline == q.deadline
    ensures Node(k, NotContacted) in a.nodes
    ensures forall x :: Knows(a.nodes, x) <==> Knows(q.nodes, x) || (x in closer && x != cfg.self)
  {
    var n := q.nodes[i].key;
    a := Apply(cfg, q, Response(n, closer));
    var all := InsertAll(cfg, q.nodes, closer);
    ApplyKeepsInv(cfg, q, Response(n, closer), 0);
    OneIndex(cfg.target, q.nodes, IndexOf(q.nodes, n), i);
    assert a.nodes == WithState(all, n, Succeeded) && a.finished == q.finished && a.deadline == q.deadline;
    hide *;
    KeepsAscending(cfg, q, t, closer, k);
    forall x ensures Knows(all, x) <==> Knows(q.nodes, x) || (x in closer && x != cfg.self) {
      LookupLaws.HearsOf(cfg, q.nodes, closer, x);
    }
    forall m ensures m in all ==> m in q.nodes || m.state.NotContacted? {
      InsertAllMembers(cfg, q.nodes, closer, m);
    }
    OneAnswered(q.nodes, all, i, k);
    NamedLively(cfg, q, a, all, n, t);
  }

  lemma KeepsAscending(cfg: Config, q: State, t: Instant, closer: seq<Bits>, k: Bits)
    requires Lively(cfg, q, t) && k in closer
    ensures cfg.Valid() && Ascending(cfg.target, q.nodes) && !q.finished
  {
  }

  /** An entry is given a state: the keys stay, and so does every other entry. */
  lemma OneAnswered(nodes: seq<Node>, all: seq<Node>, i: nat, k: Bits)
    requires i < |nodes| && !Knows(nodes, k) && Knows(all, k)
    requires forall m :: m in all ==> m in nodes || m.state.NotContacted?
    ensures var after := WithState(all, nodes[i].key, Succeeded);
      && Node(k, NotContacted) in after
      && (forall x :: Knows(after, x) <==> Knows(all, x))
      && forall m :: m in after ==> m in nodes || m.state.NotContacted? || m.state.Succeeded?
  {
    var n := nodes[i].key;
    var after := WithState(all, n, Succeeded);
    var x :| 0 <= x < |all| && all[x].key == k;
    assert all[x] !in nodes;
    assert all[x] in all && k != n;
    assert |after| == |all| && forall y :: 0 <= y < |all| ==> after[y].key == all[y].key;
    KnowsTheSame(all, after);
    assert after[x] == all[x];
    forall m | m in after ensures m in nodes || m.state.NotContacted? || m.state.Succeeded? {
      var y :| 0 <= y < |after| && after[y] == m;
      assert all[y] in all;
    }
  }

  lemma NamedLively(cfg: Config, q: State, a: State, all: seq<Node>, n: Bits, t: Instant)
    requires Lively(cfg, q, t) && Inv(cfg, a) && a.finished == q.finished && a.nodes == WithState(all, n, Succeeded)
    requires forall m :: m in WithState(all, n, Succeeded) ==> m in q.nodes || m.state.NotContacted? || m.state.Succeeded?
    ensures Lively(cfg, a, t)
  {
    hide Inv, WithState;
  }

  lemma OfAllHolds(cfg: Config)
    requires OfAll(cfg)
    ensures cfg.Valid() && cfg.coverage && HasPrefix(cfg.target, []) && 0 == cfg.prefixLen
  {
  }

  lemma LivelyInv(cfg: Config, q: State, t: Instant)
    requires Lively(cfg, q, t)
    ensures Inv(cfg, q) && !q.finished
  {
  }

  lemma AnsweredLively(cfg: Config, q: State, a: State, t: Instant, i: nat)
    requires Lively(cfg, q, t) && Inv(cfg, a) && !a.finished && i < |q.nodes|
    requires a.nodes == q.nodes[i := q.nodes[i].(state := Succeeded)]
    ensures Lively(cfg, a, t) && SameKeys(q.nodes, a.nodes)
  {
    hide Inv;
  }

  lemma RankSpent(cfg: Config, q: State, a: State, q': State, i: nat, t: Instant)
    requires !q.finished && !q'.finished && i < |q.nodes| && q.nodes[i].state.Waiting?
    requires a.nodes == q.nodes[i := q.nodes[i].(state := Succeeded)] && SameKeys(a.nodes, q'.nodes)
    requires forall x :: 0 <= x < |a.nodes| ==> q'.nodes[x] == a.nodes[x] || AskedNow(cfg, a.nodes[x], q'.nodes[x], t)
    requires q' == q.(nextDue := q'.nextDue) || Remaining(|q.nodes|, q') < Remaining(|q.nodes|, q)
    ensures SameKeys(q.nodes, q'.nodes)
    ensures Sum(Rank, q'.nodes, |q'.nodes|) < Sum(Rank, q.nodes, |q.nodes|)
  {
    hide Sum;
    assert q'.nodes[i] == a.nodes[i];
  }

  lemma StaysLively(cfg: Config, a: State, q': State, t: Instant)
    requires Lively(cfg, a, t) && Inv(cfg, q') && !q'.finished && SameKeys(a.nodes, q'.nodes)
    requires forall i :: 0 <= i < |a.nodes| ==> q'.nodes[i] == a.nodes[i] || AskedNow(cfg, a.nodes[i], q'.nodes[i], t)
    ensures Lively(cfg, q', t)
  {
    hide Inv;
    forall n | n in q'.nodes ensures n.state.NotContacted? || n.state.Succeeded? || (n.state.Waiting? && n.state.deadline >= t) {
      var i :| 0 <= i < |q'.nodes| && q'.nodes[i] == n;
      assert a.nodes[i] in a.nodes;
    }
  }

  /** Only the node at index i has not answered. */
  ghost predicate LastWaits(nodes: seq<Node>, i: nat) {
    forall x :: 0 <= x < |nodes| && x != i ==> nodes[x].state.Succeeded?
  }

  lemma AllResolved(cfg: Config, q: State, after: seq<Node>, i: nat, t: Instant)
    requires i < |q.nodes| && after == q.nodes[i := q.nodes[i].(state := Succeeded)]
    requires forall n :: n in after && HasPrefix(n.key, []) ==> LookupResults.Resolved(n.state)
    requires Lively(cfg, q, t)
    ensures LastWaits(q.nodes, i)
  {
    hide Inv;
    var nodes := q.nodes;
    forall x | 0 <= x < |nodes| && x != i ensures nodes[x].state.Succeeded? {
      assert after[x] == nodes[x] && after[x] in after && nodes[x] in nodes;
    }
  }

  /** When only one node has not answered, its answer finishes the query, however late it is, with all of them. */
  lemma LastAnswer(cfg: Config, q: State, later: Instant, i: nat)
    requires Inv(cfg, q) && !q.finished && OfAll(cfg) && later > 0 && i < |q.nodes| && q.nodes[i].state.Waiting?
    requires LastWaits(q.nodes, i)
    ensures ValidEvent(cfg, Response(q.nodes[i].key, []))
    ensures var out := Advance(cfg, q, later, Response(q.nodes[i].key, [])).1;
      out.Finished? && forall k :: k in out.results <==> Knows(q.nodes, k)
  {
    var ev := Response(q.nodes[i].key, []);
    Answered(cfg, q, i);
    var a := Apply(cfg, q, ev);
    RunningAdvance(cfg, q, later, ev);
    AllSucceeded(cfg, a, later);
    LookupResults.CoverageComplete(cfg, q, later, ev, []);
    hide *;
    KnownAnswered(q.nodes, a.nodes, i, Advance(cfg, q, later, ev).1.results);
  }

  /** A walk over nodes that have all answered ends the query. */
  lemma AllSucceeded(cfg: Config, a: State, t: Instant)
    requires Inv(cfg, a) && OfAll(cfg) && forall x :: 0 <= x < |a.nodes| ==> a.nodes[x].state.Succeeded?
    ensures Fits(cfg.target, a.nodes)
    ensures Walk(cfg, t, a).1.Finished? && Walk(cfg, t, a).0.nodes == a.nodes
  {
    var n := StopIndex(cfg, t, a, 0);
    assert n == |a.nodes|;
    NothingExpires(t, a.nodes, n);
    SweepKeepsInv(cfg, t, a, n, 0);
    NobodyWaits(a.nodes, n);
    hide StopIndex, Swept, Distance, Ascending, StopsAt;
  }

  lemma {:induction false} NobodyWaits(nodes: seq<Node>, j: nat)
    requires j <= |nodes| && forall x :: 0 <= x < |nodes| ==> nodes[x].state.Succeeded?
    ensures Sum(Waits, nodes, j) == 0
  {
    if j > 0 {
      NobodyWaits(nodes, j - 1);
    }
  }

  lemma KnownAnswered(nodes: seq<Node>, after: seq<Node>, i: nat, found: seq<Bits>)
    requires i < |nodes| && LastWaits(nodes, i) && after == nodes[i := nodes[i].(state := Succeeded)]
    requires forall k :: k in found <==> HasPrefix(k, []) && Node(k, Succeeded) in after
    ensures forall k :: k in found <==> Knows(nodes, k)
  {
    forall k ensures k in found <==> Knows(nodes, k) {
      if Knows(nodes, k) {
        var x :| 0 <= x < |nodes| && nodes[x].key == k;
        assert after[x] == Node(k, Succeeded);
      }
      if Node(k, Succeeded) in after {
        var x :| 0 <= x < |after| && after[x] == Node(k, Succeeded);
        assert nodes[x].key == k;
      }
    }
  }

  /** A query told of some keys knows exactly those, self aside, and has asked nobody. */
  lemma StartKnows(cfg: Config, seeds: seq<Bits>, k: Bits)
    requires cfg.Valid() && forall i :: 0 <= i < |seeds| ==> |seeds[i]| == |cfg.target|
    ensures Knows(Start(cfg, seeds).nodes, k) <==> k in seeds && k != cfg.self
    ensures forall n :: n in Start(cfg, seeds).nodes ==> n.state.NotContacted?
  {
    LookupLaws.HearsOf(cfg, [], seeds, k);
    forall n ensures n in InsertAll(cfg, [], seeds) ==> n.state.NotContacted? {
      InsertAllMembers(cfg, [], seeds, n);
    }
    hide InsertAll;
  }

  /** A query told of somebody but self begins by asking. */
  lemma FirstAsk(cfg: Config, seeds: seq<Bits>, t: Instant)
    requires OfAll(cfg) && t > 0 && (forall i :: 0 <= i < |seeds| ==> |seeds[i]| == |cfg.target|)
    requires exists k :: k in seeds && k != cfg.self
    ensures var q := Start(cfg, seeds);
      && Inv(cfg, q) && ValidEvent(cfg, Poll)
      && var (q', out) := Advance(cfg, q, t, Poll);
         !out.Finished? && Lively(cfg, q', t) && SameKeys(q.nodes, q'.nodes) && q'.inFlight > 0 && q'.deadline >= t
  {
    hide *;
    OfAllHolds(cfg);
    var q := Start(cfg, seeds);
    var k :| k in seeds && k != cfg.self;
    StartsLively(cfg, seeds, t, k);
    LivelyInv(cfg, q, t);
    RunningAdvance(cfg, q, t, Poll);
    LivelyWalk(cfg, q, t);
    AdvanceKeepsInv(cfg, q, t, Poll, 0);
    PoolProofs.StillWaits(cfg, q, t, Poll);
    if Advance(cfg, q, t, Poll).1.Finished? {
      LookupResults.CoverageComplete(cfg, q, t, Poll, []);
      OpenIsOpen(q.nodes, k);
    } else {
      StaysLively(cfg, q, Advance(cfg, q, t, Poll).0, t);
      Dispatching(Advance(cfg, q, t, Poll).1);
    }
  }

  lemma Dispatching(out: Outcome)
    ensures out.Finished? || out.Waits() || out.Dispatches()
  {
  }

  lemma StartsLively(cfg: Config, seeds: seq<Bits>, t: Instant, k: Bits)
    requires cfg.Valid() && (forall i :: 0 <= i < |seeds| ==> |seeds[i]| == |cfg.target|) && k in seeds && k != cfg.self
    ensures var q := Start(cfg, seeds);
      && Lively(cfg, q, t) && q.inFlight == 0 && q.stats.start == 0 && Knows(q.nodes, k)
      && Ascending(cfg.target, q.nodes) && ValidEvent(cfg, Poll) && Apply(cfg, q, Poll) == q
      && forall n :: n in q.nodes ==> n.state.NotContacted?
  {
    StartKnows(cfg, seeds, k);
    InsertAllKeepsGood(cfg, [], seeds);
    InsertAllSums(cfg, [], seeds);
  }

  lemma OpenIsOpen(nodes: seq<Node>, k: Bits)
    requires Knows(nodes, k) && forall n :: n in nodes ==> n.state.NotContacted?
    ensures exists n :: n in nodes && HasPrefix(n.key, []) && !LookupResults.Resolved(n.state)
  {
    var i :| 0 <= i < |nodes| && nodes[i].key == k;
    assert nodes[i] in nodes && HasPrefix(nodes[i].key, []);
  }
}
