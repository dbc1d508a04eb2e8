/** Whole runs of a lookup: any sequence of events at any times, from any seeds. */
module LookupRuns {
  import opened Keys
  import opened Sequences
  import opened Clock
  import opened Lookup
  import opened LookupProofs

  datatype Input = Input(now: Instant, ev: Event)

  /** Inputs the query accepts, whose replies name only nodes of the universe. */
  ghost predicate ValidInputs(cfg: Config, universe: set<Bits>, ins: seq<Input>) {
    forall i :: 0 <= i < |ins| ==> ValidInput(cfg, universe, ins[i])
  }

  ghost predicate ValidInput(cfg: Config, universe: set<Bits>, inp: Input) {
    && inp.now > 0
    && ValidEvent(cfg, inp.ev)
    && (inp.ev.Response? ==> forall k :: k in inp.ev.closer ==> k in universe)
  }

  ghost predicate Within(universe: set<Bits>, nodes: seq<Node>) {
    forall n :: n in nodes ==> n.key in universe
  }

  /** The state a run leads to. */
  ghost function After(cfg: Config, universe: set<Bits>, s: State, ins: seq<Input>): (r: State)
    requires Inv(cfg, s) && ValidInputs(cfg, universe, ins)
    ensures Inv(cfg, r)
    decreases |ins|
  {
    if |ins| == 0 then s else
    var last := ins[|ins| - 1];
    var before := After(cfg, universe, s, ins[..|ins| - 1]);
    AdvanceKeepsInv(cfg, before, last.now, last.ev, 0);
    Advance(cfg, before, last.now, last.ev).0
  }

  /** The nodes a run asks, in order. */
  ghost function Asked(cfg: Config, universe: set<Bits>, s: State, ins: seq<Input>): seq<Bits>
    requires Inv(cfg, s) && ValidInputs(cfg, universe, ins)
    decreases |ins|
  {
    if |ins| == 0 then [] else
    var last := ins[|ins| - 1];
    var out := Advance(cfg, After(cfg, universe, s, ins[..|ins| - 1]), last.now, last.ev).1;
    Asked(cfg, universe, s, ins[..|ins| - 1]) + (if out.Dispatches() then [out.node] else [])
  }

  /** How many advances of a run change the state, the recorded wake-up time aside. */
  ghost function Changes(cfg: Config, universe: set<Bits>, s: State, ins: seq<Input>): nat
    requires Inv(cfg, s) && ValidInputs(cfg, universe, ins)
    decreases |ins|
  {
    if |ins| == 0 then 0 else
    var before := After(cfg, universe, s, ins[..|ins| - 1]);
    var now := After(cfg, universe, s, ins);
    Changes(cfg, universe, s, ins[..|ins| - 1]) + (if now == before.(nextDue := now.nextDue) then 0 else 1)
  }

  // ---------- Starting ----------

  lemma StartKeepsInv(cfg: Config, universe: set<Bits>, seeds: seq<Bits>)
    requires cfg.Valid()
    requires forall i :: 0 <= i < |seeds| ==> |seeds[i]| == |cfg.target| && seeds[i] in universe
    ensures Inv(cfg, Start(cfg, seeds)) && Within(universe, Start(cfg, seeds).nodes)
  {
    InsertAllKeepsGood(cfg, [], seeds);
    InsertAllSums(cfg, [], seeds);
    forall n | n in Start(cfg, seeds).nodes
      ensures n.key in universe
    {
      InsertAllMembers(cfg, [], seeds, n);
    }
  }

  // ---------- Nodes stay within the universe ----------

  /** Where the nodes of the next state come from. */
  lemma NodesOfNext(cfg: Config, s: State, now: Instant, ev: Event, n: Node)
    requires Inv(cfg, s) && now > 0 && ValidEvent(cfg, ev) && n in Advance(cfg, s, now, ev).0.nodes
    ensures (exists m :: m in s.nodes && m.key == n.key) || (ev.Response? && n.key in ev.closer)
  {
    if !s.finished && !ev.Cancel? {
      RunningAdvance(cfg, s, now, ev);
      var a := Apply(cfg, s, ev);
      hide *;
      SameKeysWalked(cfg, a, now);
      var i :| 0 <= i < |a.nodes| && Advance(cfg, s, now, ev).0.nodes[i] == n;
      NodesOfApplied(cfg, s, ev, a.nodes[i]);
    }
  }

  /** A walk changes states only, never which nodes are known or their order. */
  lemma SameKeysWalked(cfg: Config, a: State, now: Instant)
    requires Inv(cfg, a)
    ensures cfg.Valid() && Fits(cfg.target, a.nodes)
    ensures var s' := Walk(cfg, now, a).0;
      |s'.nodes| == |a.nodes| && forall i :: 0 <= i < |a.nodes| ==> s'.nodes[i].key == a.nodes[i].key
  {
    var j, w := WalkCases(cfg, now, a);
  }

  lemma NodesOfApplied(cfg: Config, s: State, ev: Event, n: Node)
    requires Inv(cfg, s) && ValidEvent(cfg, ev) && n in Apply(cfg, s, ev).nodes
    ensures (exists m :: m in s.nodes && m.key == n.key) || (ev.Response? && n.key in ev.closer)
  {
    if n !in s.nodes {
      var base, i, st := ApplyShape(cfg, s, ev);
      if n in base && ev.Response? {
        InsertAllMembers(cfg, s.nodes, ev.closer, n);
      } else {
        assert n.key == base[i].key;
      }
    }
  }

  lemma {:induction false} RunWithin(cfg: Config, universe: set<Bits>, s: State, ins: seq<Input>)
    requires Inv(cfg, s) && ValidInputs(cfg, universe, ins) && Within(universe, s.nodes)
    ensures Within(universe, After(cfg, universe, s, ins).nodes)
    decreases |ins|
  {
    if |ins| > 0 {
      RunWithin(cfg, universe, s, ins[..|ins| - 1]);
      var last := ins[|ins| - 1];
      forall n | n in After(cfg, universe, s, ins).nodes
        ensures n.key in universe
      {
        NodesOfNext(cfg, After(cfg, universe, s, ins[..|ins| - 1]), last.now, last.ev, n);
      }
    }
  }

  /** Nodes with distinct keys of a universe are no more than the universe holds. */
  lemma {:induction false} WithinBound(t: Bits, universe: set<Bits>, nodes: seq<Node>)
    requires Ascending(t, nodes) && Within(universe, nodes)
    ensures |nodes| <= |universe|
    decreases |nodes|
  {
    if |nodes| > 0 {
      var m := |nodes| - 1;
      var k := nodes[m].key;
      assert nodes[m] in nodes;
      forall n | n in nodes[..m] ensures n.key in universe - {k} {
        var i :| 0 <= i < m && nodes[i] == n;
        assert Distance(n.key, t) < Distance(k, t);
        assert n in nodes;
      }
      WithinBound(t, universe - {k}, nodes[..m]);
    }
  }

  // ---------- Termination ----------

  /** Each change spends at least one of the changes that remained at the start. */
  lemma {:induction false} ChangesSpend(cfg: Config, universe: set<Bits>, s: State, ins: seq<Input>)
    requires Inv(cfg, s) && ValidInputs(cfg, universe, ins)
    ensures Changes(cfg, universe, s, ins) + Remaining(|universe|, After(cfg, universe, s, ins)) <= Remaining(|universe|, s)
    decreases |ins|
  {
    if |ins| > 0 {
      ChangesSpend(cfg, universe, s, ins[..|ins| - 1]);
      var before, last := After(cfg, universe, s, ins[..|ins| - 1]), ins[|ins| - 1];
      AdvanceKeepsInv(cfg, before, last.now, last.ev, |universe|);
    }
  }

  lemma {:induction false} RankAtMostThree(nodes: seq<Node>, j: nat)
    requires j <= |nodes|
    ensures Sum(Rank, nodes, j) <= 3 * j
  {
    if j > 0 {
      RankAtMostThree(nodes, j - 1);
    }
  }

  /** Over a universe of u nodes, no run of a lookup changes its state more than 4u + 1 times. */
  lemma LookupTerminates(cfg: Config, universe: set<Bits>, seeds: seq<Bits>, ins: seq<Input>)
    requires cfg.Valid() && ValidInputs(cfg, universe, ins)
    requires forall i :: 0 <= i < |seeds| ==> |seeds[i]| == |cfg.target| && seeds[i] in universe
    ensures Inv(cfg, Start(cfg, seeds))
    ensures Changes(cfg, universe, Start(cfg, seeds), ins) <= 4 * |universe| + 1
  {
    var s := Start(cfg, seeds);
    StartKeepsInv(cfg, universe, seeds);
    RunWithin(cfg, universe, s, ins);
    ChangesSpend(cfg, universe, s, ins);
    var e := After(cfg, universe, s, ins);
    WithinBound(cfg.target, universe, e.nodes);
    RankAtMostThree(s.nodes, |s.nodes|);
  }

  // ---------- No node is asked twice ----------

  /** Whether k has left the not-contacted state, which it never returns to. */
  ghost predicate Touched(nodes: seq<Node>, k: Bits) {
    exists n :: n in nodes && n.key == k && !n.state.NotContacted?
  }

  lemma TouchedByApply(cfg: Config, s: State, ev: Event, k: Bits)
    requires Inv(cfg, s) && ValidEvent(cfg, ev) && Touched(s.nodes, k)
    ensures Touched(Apply(cfg, s, ev).nodes, k)
  {
    var a := Apply(cfg, s, ev);
    if a != s {
      var n :| n in s.nodes && n.key == k && !n.state.NotContacted?;
      var base, i, st := ApplyShape(cfg, s, ev);
      if ev.Response? {
        InsertAllMembers(cfg, s.nodes, ev.closer, n);
      }
      hide *;
      TouchedByUpdate(base, i, st, n);
    }
  }

  lemma TouchedByUpdate(nodes: seq<Node>, i: nat, st: NodeState, n: Node)
    requires i < |nodes| && n in nodes && !n.state.NotContacted? && !st.NotContacted?
    ensures Touched(nodes[i := nodes[i].(state := st)], n.key)
  {
    var x :| 0 <= x < |nodes| && nodes[x] == n;
    var r := nodes[i := nodes[i].(state := st)];
    assert r[x] in r;
  }

  /** A node once touched stays so, and a node an advance asks was not touched before it but is after. */
  lemma AskTouches(cfg: Config, s: State, now: Instant, ev: Event, k: Bits)
    requires Inv(cfg, s) && now > 0 && ValidEvent(cfg, ev)
    ensures var (s', out) := Advance(cfg, s, now, ev);
      && (Touched(s.nodes, k) ==> Touched(s'.nodes, k))
      && (out.Dispatches() && out.node == k ==> !Touched(s.nodes, k) && Touched(s'.nodes, k) && k != cfg.self)
      && s'.stats.requests == s.stats.requests + (if out.Dispatches() then 1 else 0)
  {
    if !s.finished && !ev.Cancel? {
      RunningAdvance(cfg, s, now, ev);
      var a := Apply(cfg, s, ev);
      hide *;
      if Touched(s.nodes, k) {
        TouchedByApply(cfg, s, ev, k);
      }
      WalkTouches(cfg, a, now, k);
    }
  }

  lemma WalkTouches(cfg: Config, a: State, now: Instant, k: Bits)
    requires Inv(cfg, a) && now > 0
    ensures var (s', out) := Walk(cfg, now, a);
      && (Touched(a.nodes, k) ==> Touched(s'.nodes, k))
      && (out.Dispatches() && out.node == k ==> !Touched(a.nodes, k) && Touched(s'.nodes, k) && k != cfg.self)
      && s'.stats.requests == a.stats.requests + (if out.Dispatches() then 1 else 0)
  {
    var j, w := WalkCases(cfg, now, a);
    var (s', out) := Walk(cfg, now, a);
    hide Walk, StopIndex, Distance, Results, EarliestDeadline, Sum;
    if Touched(a.nodes, k) {
      var n :| n in a.nodes && n.key == k && !n.state.NotContacted?;
      var x :| 0 <= x < |a.nodes| && a.nodes[x] == n;
      if out.Dispatches() {
        assert x != j;
        DistinctKeys(cfg.target, a.nodes, x, j);
      }
      assert s'.nodes[x] in s'.nodes && s'.nodes[x].key == k;
    }
    if out.Dispatches() && out.node == k {
      assert s'.nodes[j] in s'.nodes && a.nodes[j] in a.nodes;
    }
  }

  /** The nodes asked so far are distinct, none is self, and each has been touched since. */
  ghost predicate AskedApart(cfg: Config, start: State, now: State, asked: seq<Bits>) {
    && Distinct(asked)
    && (forall i :: 0 <= i < |asked| ==> asked[i] != cfg.self && !Touched(start.nodes, asked[i]) && Touched(now.nodes, asked[i]))
    && (forall k :: Touched(start.nodes, k) ==> Touched(now.nodes, k))
    && now.stats.requests == start.stats.requests + |asked|
  }

  /** In every run no node is asked twice, self is never asked, and the request counter counts the asks. */
  lemma {:induction false} AskedOnce(cfg: Config, universe: set<Bits>, s: State, ins: seq<Input>)
    requires Inv(cfg, s) && ValidInputs(cfg, universe, ins)
    ensures AskedApart(cfg, s, After(cfg, universe, s, ins), Asked(cfg, universe, s, ins))
    decreases |ins|
  {
    if |ins| > 0 {
      var init, last := ins[..|ins| - 1], ins[|ins| - 1];
      AskedOnce(cfg, universe, s, init);
      OneMoreAsked(cfg, s, After(cfg, universe, s, init), last.now, last.ev, Asked(cfg, universe, s, init));
    }
  }

  lemma OneMoreAsked(cfg: Config, start: State, s: State, now: Instant, ev: Event, asked: seq<Bits>)
    requires Inv(cfg, s) && now > 0 && ValidEvent(cfg, ev) && AskedApart(cfg, start, s, asked)
    ensures var (s', out) := Advance(cfg, s, now, ev);
      AskedApart(cfg, start, s', asked + (if out.Dispatches() then [out.node] else []))
  {
    var (s', out) := Advance(cfg, s, now, ev);
    hide *;
    forall k
      ensures Touched(s.nodes, k) ==> Touched(s'.nodes, k)
      ensures out.Dispatches() && out.node == k ==> !Touched(s.nodes, k) && Touched(s'.nodes, k) && k != cfg.self
    {
      AskTouches(cfg, s, now, ev, k);
    }
    AskTouches(cfg, s, now, ev, []);
    if out.Dispatches() {
      OneMoreApart(cfg, start, s, s', asked, [out.node]);
    } else {
      OneMoreApart(cfg, start, s, s', asked, []);
    }
  }

  lemma OneMoreApart(cfg: Config, start: State, s: State, s': State, asked: seq<Bits>, more: seq<Bits>)
    requires AskedApart(cfg, start, s, asked) && |more| <= 1
    requires forall k :: Touched(s.nodes, k) ==> Touched(s'.nodes, k)
    requires |more| == 1 ==> !Touched(s.nodes, more[0]) && Touched(s'.nodes, more[0]) && more[0] != cfg.self
    requires s'.stats.requests == s.stats.requests + |more|
    ensures AskedApart(cfg, start, s', asked + more)
  {
    hide Touched;
    var all := asked + more;
    assert forall i :: 0 <= i < |asked| ==> all[i] == asked[i] && Touched(s.nodes, all[i]);
    if |more| == 1 {
      assert all[|asked|] == more[0] && !Touched(start.nodes, more[0]);
    }
  }

  // ---------- Finishing is final ----------

  /** Once finished, a query stays as it is and reports the same result whatever arrives later. */
  lemma {:induction false} FinishedIsFinal(cfg: Config, universe: set<Bits>, s: State, ins: seq<Input>)
    requires Inv(cfg, s) && ValidInputs(cfg, universe, ins) && s.finished
    ensures After(cfg, universe, s, ins) == s && Asked(cfg, universe, s, ins) == []
    decreases |ins|
  {
    if |ins| > 0 {
      FinishedIsFinal(cfg, universe, s, ins[..|ins| - 1]);
    }
  }

  /** A report of completion leaves the query finished, and every later advance repeats it. */
  lemma FinishReported(cfg: Config, s: State, now: Instant, ev: Event, later: Instant, ev': Event)
    requires Inv(cfg, s) && ValidEvent(cfg, ev) && ValidEvent(cfg, ev') && now > 0
    requires Advance(cfg, s, now, ev).1.Finished?
    ensures var (s', out) := Advance(cfg, s, now, ev);
      && Inv(cfg, s') && s'.finished
      && Advance(cfg, s', later, ev') == (s', out)
  {
    AdvanceKeepsInv(cfg, s, now, ev, 0);
    FinishedState(cfg, s, now, ev);
    hide GoodNodes, Balanced, Walk, Apply;
  }

  lemma FinishedState(cfg: Config, s: State, now: Instant, ev: Event)
    requires Inv(cfg, s) && ValidEvent(cfg, ev) && Advance(cfg, s, now, ev).1.Finished?
    ensures var (s', out) := Advance(cfg, s, now, ev); s'.finished && out == Finished(s'.results, s'.stats)
  {
    if !s.finished && !ev.Cancel? {
      RunningAdvance(cfg, s, now, ev);
      hide GoodNodes, Balanced, Apply, Advance;
      var j, w := WalkCases(cfg, now, Apply(cfg, s, ev));
    }
  }
}
