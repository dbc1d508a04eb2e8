/** Publishing a record while the walk towards its key is still under way: what each event leads to, and
    which nodes are asked to store the record. What the query pool reports is an input. */
module OptimisticSpec {
  import opened Keys
  import opened Clock
  import opened Sequences

  /** The thresholds are distances. */
  datatype Config = Config(target: Bits, seeds: seq<Bits>, replicationFactor: nat, individualThreshold: real, setThreshold: real)
  {
    predicate Valid() {
      replicationFactor >= 1 && forall i :: 0 <= i < |seeds| ==> |seeds[i]| == |target|
    }
  }

  datatype State = State(
    started: bool, walking: bool, stopped: bool, found: seq<Bits>, seen: set<Bits>, todo: set<Bits>,
    waiting: set<Bits>, contacted: seq<Bits>, failed: set<Bits>, nextDue: Instant)

  function Initial(): State {
    State(false, false, false, [], {}, {}, {}, [], {}, 0)
  }

  datatype Event =
    | Start
    | Stop
    | NodeResponse(node: Bits, closer: seq<Bits>)
    | NodeFailure(node: Bits)
    | StoreSuccess(node: Bits)
    | StoreFailure(node: Bits)
    | Poll

  /** What the query pool reports when it is advanced. */
  datatype Report =
    | FindCloser(node: Bits)
    | Waits(nextDue: Instant)
    | WalkFinished(closest: seq<Bits>)
    | WalkTimeout
    | PoolIdle

  datatype Outcome =
    | AskCloser(node: Bits)
    | StoreRecord(node: Bits)
    | Waiting(nextDue: Instant)
    | Finished(contacted: seq<Bits>, errors: set<Bits>)
    | Idle

  predicate NodesFit(cfg: Config, nodes: seq<Bits>) {
    forall i :: 0 <= i < |nodes| ==> |nodes[i]| == |cfg.target|
  }

  predicate ValidInput(cfg: Config, ev: Event, report: Report) {
    (ev.NodeResponse? ==> NodesFit(cfg, ev.closer)) && (report.WalkFinished? ==> NodesFit(cfg, report.closest))
  }

  // ---------- Nodes in order of distance ----------

  function InsertByDistance(t: Bits, s: seq<Bits>, k: Bits): (r: seq<Bits>)
    requires |k| == |t| && forall i :: 0 <= i < |s| ==> |s[i]| == |t|
    ensures multiset(r) == multiset(s) + multiset{k}
    ensures forall i :: 0 <= i < |r| ==> |r[i]| == |t|
  {
    if |s| == 0 then [k] else
    var init, last := s[..|s| - 1], s[|s| - 1];
    assert s == init + [last];
    if Distance(last, t) <= Distance(k, t) then s + [k] else InsertByDistance(t, init, k) + [last]
  }

  /** The nodes in ascending distance from t. */
  function SortByDistance(t: Bits, s: seq<Bits>): (r: seq<Bits>)
    requires forall i :: 0 <= i < |s| ==> |s[i]| == |t|
    ensures multiset(r) == multiset(s)
    ensures forall i :: 0 <= i < |r| ==> |r[i]| == |t|
  {
    if |s| == 0 then [] else
    assert s == s[..|s| - 1] + [s[|s| - 1]];
    InsertByDistance(t, SortByDistance(t, s[..|s| - 1]), s[|s| - 1])
  }

  function SumDistances(t: Bits, s: seq<Bits>): nat
    requires forall i :: 0 <= i < |s| ==> |s[i]| == |t|
  {
    if |s| == 0 then 0 else SumDistances(t, s[..|s| - 1]) + Distance(s[|s| - 1], t)
  }

  /** The nodes not seen before, each once, in the order they were named. */
  function Unseen(seen: set<Bits>, nodes: seq<Bits>): (r: seq<Bits>)
    ensures forall k :: k in r <==> k in nodes && k !in seen
    ensures Distinct(r)
  {
    if |nodes| == 0 then [] else
    var init, last := Unseen(seen, nodes[..|nodes| - 1]), nodes[|nodes| - 1];
    if last in seen || last in init then init else init + [last]
  }

  predicate Fits(cfg: Config, s: State) {
    NodesFit(cfg, s.found)
  }

  // ---------- One advance ----------

  predicate Near(cfg: Config, k: Bits) {
    |k| == |cfg.target| && Distance(k, cfg.target) as real < cfg.individualThreshold
  }

  function Members(nodes: seq<Bits>): set<Bits> {
    set k | k in nodes
  }

  /** The nodes that are near enough on their own. */
  function NearEnough(cfg: Config, nodes: seq<Bits>): set<Bits> {
    set k | k in nodes && Near(cfg, k)
  }

  /** Newly heard-of nodes join those found; one near enough on its own is to be asked at once. */
  function Discover(cfg: Config, s: State, nodes: seq<Bits>): (r: State)
    requires Fits(cfg, s) && NodesFit(cfg, nodes)
    ensures Fits(cfg, r)
  {
    var unseen := Unseen(s.seen, nodes);
    UnseenFit(cfg, s.seen, nodes);
    s.(found := SortByDistance(cfg.target, s.found + unseen),
       seen := s.seen + Members(nodes),
       todo := s.todo + NearEnough(cfg, unseen))
  }

  lemma UnseenFit(cfg: Config, seen: set<Bits>, nodes: seq<Bits>)
    requires NodesFit(cfg, nodes)
    ensures NodesFit(cfg, Unseen(seen, nodes))
  {
    forall i | 0 <= i < |Unseen(seen, nodes)|
      ensures |Unseen(seen, nodes)[i]| == |cfg.target|
    {
      assert Unseen(seen, nodes)[i] in nodes;
    }
  }

  function Limit(cfg: Config, s: State): nat {
    if cfg.replicationFactor < |s.found| then cfg.replicationFactor else |s.found|
  }

  /** The nearest nodes found, as many as the record is to be kept by. */
  function Nearest(cfg: Config, s: State): set<Bits> {
    Members(s.found[..Limit(cfg, s)])
  }

  /** Those of the nodes that have not been asked. */
  function Unasked(s: State, nodes: seq<Bits>): set<Bits> {
    set k | k in nodes && k !in s.waiting && k !in s.failed && k !in s.contacted
  }

  lemma UnaskedStep(s: State, nodes: seq<Bits>, i: nat)
    requires i < |nodes|
    ensures var k := nodes[i];
      Unasked(s, nodes[..i + 1]) == Unasked(s, nodes[..i]) +
        (if k !in s.waiting && k !in s.failed && k !in s.contacted then {k} else {})
  {
    assert nodes[..i + 1] == nodes[..i] + [nodes[i]];
  }

  /** The walk is over: each of the nearest not yet asked is to be asked. */
  function EndWalk(cfg: Config, s: State): State {
    var t := s.(walking := false);
    if s.stopped then t else
    t.(todo := s.todo + Unasked(s, s.found[..Limit(cfg, s)]))
  }

  /** The nearest nodes are, on average, near enough. */
  predicate SetThresholdMet(cfg: Config, s: State)
    requires cfg.Valid() && Fits(cfg, s)
  {
    && |s.found| >= cfg.replicationFactor
    && SumDistances(cfg.target, s.found[..cfg.replicationFactor]) as real / cfg.replicationFactor as real < cfg.setThreshold
  }

  /** What an event changes, and whether the query pool is to be advanced. */
  function HandleEvent(cfg: Config, s: State, ev: Event): (r: (State, bool))
    requires cfg.Valid() && Fits(cfg, s) && (ev.NodeResponse? ==> NodesFit(cfg, ev.closer))
    ensures Fits(cfg, r.0)
  {
    match ev
    case Start => (Discover(cfg, s.(started := true, walking := true), cfg.seeds), true)
    case Stop => (s.(stopped := true), s.walking)
    case NodeResponse(_, closer) => (Discover(cfg, s, closer), true)
    case NodeFailure(_) => (s, true)
    case StoreSuccess(k) => (s.(waiting := s.waiting - {k}), false)
    case StoreFailure(k) => (s.(waiting := s.waiting - {k}, failed := s.failed + {k}), false)
    case Poll => (s, true)
  }

  /** What the pool's report changes. */
  function NoteReport(cfg: Config, s: State, report: Report): (r: State)
    requires Fits(cfg, s) && (report.WalkFinished? ==> NodesFit(cfg, report.closest))
    ensures Fits(cfg, r)
  {
    match report
    case FindCloser(_) => s
    case Waits(due) => s.(nextDue := due)
    case WalkFinished(closest) => EndWalk(cfg, Discover(cfg, s, closest))
    case WalkTimeout => EndWalk(cfg, s)
    case PoolIdle => s
  }

  /** With the pool seen to: a stopped operation fails what is open, otherwise one node is asked to store
      the record, or the operation waits, or it is finished. pick is the node asked when there is one to ask. */
  function Proceed(s: State, pick: Bits): (State, Outcome) {
    if s.stopped then
      var t := s.(todo := {}, waiting := {}, failed := s.failed + s.todo + s.waiting);
      (t, Finished(t.contacted, t.failed))
    else if pick in s.todo then
      (s.(todo := s.todo - {pick}, waiting := s.waiting + {pick}, contacted := s.contacted + [pick]), StoreRecord(pick))
    else if s.waiting != {} || s.walking then (s, Waiting(s.nextDue))
    else if s.started then (s, Finished(s.contacted, s.failed))
    else (s, Idle)
  }

  /** The state after the event and, when the nearest nodes are near enough, the end of the walk; and
      whether the pool is to be advanced. */
  function Prepare(cfg: Config, s: State, ev: Event): (r: (State, bool))
    requires cfg.Valid() && Fits(cfg, s) && (ev.NodeResponse? ==> NodesFit(cfg, ev.closer))
    ensures Fits(cfg, r.0)
  {
    var (h, advance) := HandleEvent(cfg, s.(nextDue := 0), ev);
    if h.walking && !h.stopped && SetThresholdMet(cfg, h) then (EndWalk(cfg, h), true) else (h, advance)
  }

  /** The state in which the next store is chosen, unless the pool has a node to ask. */
  function Polled(cfg: Config, s: State, ev: Event, report: Report): (r: State)
    requires cfg.Valid() && Fits(cfg, s) && ValidInput(cfg, ev, report)
    ensures Fits(cfg, r)
  {
    var (p, advance) := Prepare(cfg, s, ev);
    if advance then NoteReport(cfg, p, report) else p
  }

  function Advance(cfg: Config, s: State, ev: Event, report: Report, pick: Bits): (State, Outcome)
    requires cfg.Valid() && Fits(cfg, s) && ValidInput(cfg, ev, report)
  {
    var p := Polled(cfg, s, ev, report);
    if Prepare(cfg, s, ev).1 && report.FindCloser? then (p, AskCloser(report.node)) else Proceed(p, pick)
  }

  /** Which of several nodes is asked first is open; one is asked if there is one to ask. */
  ghost predicate Picks(cfg: Config, s: State, ev: Event, report: Report, pick: Bits)
    requires cfg.Valid() && Fits(cfg, s) && ValidInput(cfg, ev, report)
  {
    var p := Polled(cfg, s, ev, report);
    p.todo != {} ==> pick in p.todo
  }

  // ---------- What every run keeps ----------

  ghost predicate Ascending(t: Bits, s: seq<Bits>) {
    && (forall i :: 0 <= i < |s| ==> |s[i]| == |t|)
    && forall i, j {:trigger Distance(s[i], t), Distance(s[j], t)} :: 0 <= i < j < |s| ==> Distance(s[i], t) < Distance(s[j], t)
  }

  /** Found nodes lie in strictly ascending distance and are the nodes seen; no node is asked twice or
      asked unfound; and until a stop every node near enough on its own has been asked or is about to be. */
  ghost predicate Core(cfg: Config, s: State) {
    && cfg.Valid()
    && Ascending(cfg.target, s.found)
    && (forall k :: k in s.found <==> k in s.seen)
    && Distinct(s.contacted)
    && (forall k :: k in s.todo ==> k in s.found && k !in s.contacted)
    && (forall k :: k in s.contacted ==> k in s.found)
    && (forall k :: k in s.waiting ==> k in s.contacted)
    && (!s.stopped ==> forall k :: k in s.found && Near(cfg, k) ==> k in s.todo || k in s.contacted)
  }

  /** With nothing stopped and one outcome for a node asked, besides: only a node asked can have failed, and
      none that has is waited for. */
  ghost predicate Inv(cfg: Config, s: State) {
    && Core(cfg, s) && !s.stopped
    && (forall k :: k in s.waiting ==> k !in s.failed)
    && (forall k :: k in s.failed ==> k in s.contacted)
  }

  /** An outcome comes for a node that was asked and has not answered yet, and nothing is stopped. */
  predicate Expected(s: State, ev: Event) {
    !ev.Stop? && (ev.StoreSuccess? || ev.StoreFailure? ==> ev.node in s.waiting)
  }

  // ---------- Sorting ----------

  lemma {:induction false} InsertAscending(t: Bits, s: seq<Bits>, k: Bits)
    requires Ascending(t, s) && |k| == |t| && k !in s
    ensures Ascending(t, InsertByDistance(t, s, k))
  {
    hide Distance;
    if |s| > 0 {
      var init, last := s[..|s| - 1], s[|s| - 1];
      if Distance(last, t) <= Distance(k, t) {
        NotTied(t, last, k);
        Extended(t, s, k);
      } else {
        InsertAscending(t, init, k);
        var r := InsertByDistance(t, init, k);
        if |r| > 0 {
          assert r[|r| - 1] in multiset(r);
          assert r[|r| - 1] in init || r[|r| - 1] == k;
        }
        Extended(t, r, last);
      }
    }
  }

  lemma NotTied(t: Bits, a: Bits, b: Bits)
    requires |a| == |b| == |t| && a != b
    ensures Distance(a, t) != Distance(b, t)
  {
    if Distance(a, t) == Distance(b, t) {
      DistanceInjective(t, a, b);
    }
  }

  lemma Extended(t: Bits, s: seq<Bits>, k: Bits)
    requires Ascending(t, s) && |k| == |t|
    requires |s| > 0 ==> Distance(s[|s| - 1], t) < Distance(k, t)
    ensures Ascending(t, s + [k])
  {
    hide Distance;
    var r := s + [k];
    forall i, j | 0 <= i < j < |r|
      ensures |r[i]| == |r[j]| == |t| && Distance(r[i], t) < Distance(r[j], t)
    {
      assert r[i] == s[i] && (j < |s| ==> r[j] == s[j]);
      if j == |s| && i < j - 1 {
        assert Distance(s[i], t) < Distance(s[j - 1], t);
      }
    }
  }

  lemma {:induction false} SortAscending(t: Bits, s: seq<Bits>)
    requires Distinct(s) && forall i :: 0 <= i < |s| ==> |s[i]| == |t|
    ensures Ascending(t, SortByDistance(t, s)) && forall k :: k in SortByDistance(t, s) <==> k in s
  {
    if |s| > 0 {
      var init, last := s[..|s| - 1], s[|s| - 1];
      SortAscending(t, init);
      assert last !in init;
      InsertAscending(t, SortByDistance(t, init), last);
    }
    forall k ensures k in SortByDistance(t, s) <==> k in s {
      assert k in multiset(SortByDistance(t, s)) <==> k in multiset(s);
    }
  }

  lemma AscendingDistinct(t: Bits, s: seq<Bits>)
    requires Ascending(t, s)
    ensures Distinct(s)
  {
    forall i, j | 0 <= i < j < |s|
      ensures s[i] != s[j]
    {
      assert Distance(s[i], t) < Distance(s[j], t);
    }
  }

  // ---------- Each part of an advance keeps the invariant ----------

  lemma DiscoverKeepsCore(cfg: Config, s: State, nodes: seq<Bits>)
    requires Core(cfg, s) && NodesFit(cfg, nodes)
    ensures Core(cfg, Discover(cfg, s, nodes))
  {
    var more := Unseen(s.seen, nodes);
    UnseenFit(cfg, s.seen, nodes);
    AscendingDistinct(cfg.target, s.found);
    var all := s.found + more;
    forall i, j | 0 <= i < j < |all|
      ensures all[i] != all[j]
    {
      if i < |s.found| <= j {
        assert all[i] in s.found && all[j] in more;
      }
    }
    SortAscending(cfg.target, all);
    hide Ascending, SortByDistance, Unseen, Distance;
  }

  lemma DiscoverKeepsInv(cfg: Config, s: State, nodes: seq<Bits>)
    requires Inv(cfg, s) && NodesFit(cfg, nodes)
    ensures Inv(cfg, Discover(cfg, s, nodes))
  {
    DiscoverKeepsCore(cfg, s, nodes);
    hide Core, SortByDistance, Unseen, Distance;
  }

  lemma EndWalkKeepsCore(cfg: Config, s: State)
    requires Core(cfg, s)
    ensures Core(cfg, EndWalk(cfg, s))
  {
    assert forall k :: k in Nearest(cfg, s) ==> k in s.found;
    hide Ascending, Distinct, Distance, Nearest;
  }

  lemma EndWalkKeepsInv(cfg: Config, s: State)
    requires Inv(cfg, s)
    ensures Inv(cfg, EndWalk(cfg, s))
  {
    EndWalkKeepsCore(cfg, s);
    hide Core, Distance, Nearest;
  }

  /** The nodes nearest are among those found, as many as asked for or all there are, and nearer
      than every other node found. */
  lemma NearestIsNearest(cfg: Config, s: State)
    requires Core(cfg, s)
    ensures var near := Nearest(cfg, s);
      && (forall k :: k in near ==> k in s.found)
      && |near| == Limit(cfg, s)
      && (forall k, j :: k in near && j in s.found && j !in near ==>
            |k| == |j| == |cfg.target| && Distance(k, cfg.target) < Distance(j, cfg.target))
  {
    AscendingDistinct(cfg.target, s.found);
    DistinctCount(s.found[..Limit(cfg, s)], Nearest(cfg, s));
    forall k, j | k in Nearest(cfg, s) && j in s.found && j !in Nearest(cfg, s)
      ensures |k| == |j| == |cfg.target| && Distance(k, cfg.target) < Distance(j, cfg.target)
    {
      NearestNearer(cfg, s, k, j);
    }
  }

  lemma NearestNearer(cfg: Config, s: State, k: Bits, j: Bits)
    requires Ascending(cfg.target, s.found) && k in Nearest(cfg, s) && j in s.found && j !in Nearest(cfg, s)
    ensures |k| == |j| == |cfg.target| && Distance(k, cfg.target) < Distance(j, cfg.target)
  {
    hide Distance;
    var n := Limit(cfg, s);
    var a :| 0 <= a < n && s.found[a] == k;
    var b :| 0 <= b < |s.found| && s.found[b] == j;
    InFront(s.found, n, b);
    assert Distance(s.found[a], cfg.target) < Distance(s.found[b], cfg.target);
  }

  lemma InFront(s: seq<Bits>, n: nat, b: nat)
    requires n <= |s| && b < |s|
    ensures b < n ==> s[b] in s[..n]
  {
    if b < n {
      assert s[..n][b] == s[b];
    }
  }

  /** No event and no report disturbs the core: not a stop, and not an outcome nobody waits for. */
  lemma PolledKeepsCore(cfg: Config, s: State, ev: Event, report: Report)
    requires Core(cfg, s) && Fits(cfg, s) && ValidInput(cfg, ev, report)
    ensures Core(cfg, Polled(cfg, s, ev, report))
  {
    var s0 := s.(nextDue := 0);
    assert Core(cfg, s0);
    HandleKeepsCore(cfg, s0, ev);
    var (h, _) := HandleEvent(cfg, s0, ev);
    hide HandleEvent, Core, Discover;
    EndWalkKeepsCore(cfg, h);
    var (p, _) := Prepare(cfg, s, ev);
    hide Prepare;
    assert Core(cfg, p);
    ReportKeepsCore(cfg, p, report);
  }

  lemma HandleKeepsCore(cfg: Config, s: State, ev: Event)
    requires Core(cfg, s) && Fits(cfg, s) && (ev.NodeResponse? ==> NodesFit(cfg, ev.closer))
    ensures Core(cfg, HandleEvent(cfg, s, ev).0)
  {
    match ev {
      case Start =>
        var t := s.(started := true, walking := true);
        assert Core(cfg, t);
        DiscoverKeepsCore(cfg, t, cfg.seeds);
      case NodeResponse(_, closer) => DiscoverKeepsCore(cfg, s, closer);
      case _ =>
    }
    hide Discover, Ascending, Distinct, Distance;
  }

  lemma ReportKeepsCore(cfg: Config, s: State, report: Report)
    requires Core(cfg, s) && Fits(cfg, s) && (report.WalkFinished? ==> NodesFit(cfg, report.closest))
    ensures Core(cfg, NoteReport(cfg, s, report))
  {
    match report {
      case WalkFinished(closest) =>
        DiscoverKeepsCore(cfg, s, closest);
        EndWalkKeepsCore(cfg, Discover(cfg, s, closest));
      case WalkTimeout => EndWalkKeepsCore(cfg, s);
      case Waits(due) => assert Core(cfg, s.(nextDue := due));
      case _ =>
    }
    hide Discover, EndWalk, Core;
  }

  lemma ProceedKeepsCore(cfg: Config, s: State, pick: Bits)
    requires Core(cfg, s)
    ensures Core(cfg, Proceed(s, pick).0)
  {
    hide Ascending, Distance;
    if !s.stopped && pick in s.todo {
      assert pick !in s.contacted;
      assert Distinct(s.contacted + [pick]);
    }
  }

  lemma PolledKeepsInv(cfg: Config, s: State, ev: Event, report: Report)
    requires Inv(cfg, s) && ValidInput(cfg, ev, report) && Expected(s, ev)
    ensures Inv(cfg, Polled(cfg, s, ev, report))
  {
    var s0 := s.(nextDue := 0);
    assert Inv(cfg, s0) by {
      assert Core(cfg, s0);
      hide Core;
    }
    HandleKeepsInv(cfg, s0, ev);
    var (h, _) := HandleEvent(cfg, s0, ev);
    hide HandleEvent, Inv, Discover;
    EndWalkKeepsInv(cfg, h);
    var (p, _) := Prepare(cfg, s, ev);
    hide Prepare;
    assert Inv(cfg, p);
    ReportKeepsInv(cfg, p, report);
  }

  lemma HandleKeepsInv(cfg: Config, s: State, ev: Event)
    requires Inv(cfg, s) && (ev.NodeResponse? ==> NodesFit(cfg, ev.closer)) && Expected(s, ev)
    ensures Inv(cfg, HandleEvent(cfg, s, ev).0)
  {
    HandleKeepsCore(cfg, s, ev);
    hide Core, SortByDistance, Unseen, Distance;
  }

  lemma ReportKeepsInv(cfg: Config, s: State, report: Report)
    requires Inv(cfg, s) && (report.WalkFinished? ==> NodesFit(cfg, report.closest))
    ensures Inv(cfg, NoteReport(cfg, s, report))
  {
    match report {
      case WalkFinished(closest) =>
        DiscoverKeepsInv(cfg, s, closest);
        EndWalkKeepsInv(cfg, Discover(cfg, s, closest));
      case WalkTimeout => EndWalkKeepsInv(cfg, s);
      case Waits(due) =>
        assert Core(cfg, s.(nextDue := due));
        assert Inv(cfg, s.(nextDue := due));
      case _ =>
    }
    hide Discover, EndWalk, Inv, Core;
  }

  lemma ProceedKeepsInv(cfg: Config, s: State, pick: Bits)
    requires Inv(cfg, s)
    ensures Inv(cfg, Proceed(s, pick).0)
  {
    ProceedKeepsCore(cfg, s, pick);
    assert pick in s.todo ==> pick !in s.failed;
    hide Ascending, Distance, Distinct, Near;
  }

  // ---------- What the publisher promises ----------

  /** The node an event says has stored the record. */
  function StoredBy(ev: Event): set<Bits> {
    if ev.StoreSuccess? then {ev.node} else {}
  }

  /** The node an event says has not. */
  function RefusedBy(ev: Event): set<Bits> {
    if ev.StoreFailure? then {ev.node} else {}
  }

  /** Nothing is asked twice, whatever happens: a stop, and outcomes nobody waits for, included. The only
      change to the list of nodes asked is the node an advance asks, which was not among them. */
  lemma NeverAskedTwice(cfg: Config, s: State, ev: Event, report: Report, pick: Bits)
    requires Core(cfg, s) && Fits(cfg, s) && ValidInput(cfg, ev, report) && Picks(cfg, s, ev, report, pick)
    ensures var (s', out) := Advance(cfg, s, ev, report, pick);
      && Core(cfg, s')
      && (if out.StoreRecord? then out.node !in s.contacted && s'.contacted == s.contacted + [out.node]
          else s'.contacted == s.contacted)
  {
    hide *;
    CoreFacts(cfg, s);
    PolledKeepsCore(cfg, s, ev, report);
    SameContacted(cfg, s, ev, report);
    AdvanceParts(cfg, s, ev, report, pick);
    ProceedKeepsCore(cfg, Polled(cfg, s, ev, report), pick);
    AsksOne(cfg, Polled(cfg, s, ev, report), pick);
  }

  lemma CoreFacts(cfg: Config, s: State)
    requires Core(cfg, s)
    ensures cfg.Valid()
  {
  }

  lemma AsksOne(cfg: Config, p: State, pick: Bits)
    requires Core(cfg, p)
    ensures var (s', out) := Proceed(p, pick);
      if out.StoreRecord? then out.node !in p.contacted && s'.contacted == p.contacted + [out.node]
      else s'.contacted == p.contacted
  {
    hide Ascending, Distance;
  }

  /** With nothing stopped and one outcome for a node asked, every advance keeps the whole invariant; and
      what is reported at the end is that every node found that was near enough on its own has been asked,
      that every node with an error is one that was asked, and that nothing is open. */
  lemma StoresOnce(cfg: Config, s: State, ev: Event, report: Report, pick: Bits)
    requires Inv(cfg, s) && ValidInput(cfg, ev, report) && Expected(s, ev) && Fits(cfg, s) && Picks(cfg, s, ev, report, pick)
    ensures var (s', out) := Advance(cfg, s, ev, report, pick);
      && Inv(cfg, s')
      && (if out.StoreRecord? then out.node !in s.contacted && s'.contacted == s.contacted + [out.node]
          else s'.contacted == s.contacted)
      && (out.Finished? ==>
            && out.contacted == s'.contacted && Distinct(out.contacted)
            && (forall k :: k in s'.found && Near(cfg, k) ==> k in out.contacted)
            && (forall k :: k in out.errors ==> k in out.contacted)
            && s'.waiting == {} && s'.todo == {} && !s'.walking)
  {
    hide *;
    InvFacts(cfg, s);
    PolledKeepsInv(cfg, s, ev, report);
    SameContacted(cfg, s, ev, report);
    AdvanceParts(cfg, s, ev, report, pick);
    PicksOne(cfg, s, ev, report, pick);
    ProceedKeepsInv(cfg, Polled(cfg, s, ev, report), pick);
    Promised(cfg, Polled(cfg, s, ev, report), pick);
  }

  lemma PicksOne(cfg: Config, s: State, ev: Event, report: Report, pick: Bits)
    requires cfg.Valid() && Fits(cfg, s) && ValidInput(cfg, ev, report) && Picks(cfg, s, ev, report, pick)
    ensures Polled(cfg, s, ev, report).todo != {} ==> pick in Polled(cfg, s, ev, report).todo
  {
    hide Polled;
  }

  lemma Promised(cfg: Config, p: State, pick: Bits)
    requires Inv(cfg, p) && (p.todo != {} ==> pick in p.todo)
    ensures var (s', out) := Proceed(p, pick);
      && (if out.StoreRecord? then out.node !in p.contacted && s'.contacted == p.contacted + [out.node]
          else s'.contacted == p.contacted)
      && (out.Finished? ==>
            && out.contacted == s'.contacted && Distinct(out.contacted)
            && (forall k :: k in s'.found && Near(cfg, k) ==> k in out.contacted)
            && (forall k :: k in out.errors ==> k in out.contacted)
            && s'.waiting == {} && s'.todo == {} && !s'.walking)
  {
    hide Ascending, Distance;
  }

  lemma SameContacted(cfg: Config, s: State, ev: Event, report: Report)
    requires cfg.Valid() && Fits(cfg, s) && ValidInput(cfg, ev, report)
    ensures var p := Polled(cfg, s, ev, report);
      p.contacted == s.contacted && p.waiting == s.waiting - StoredBy(ev) - RefusedBy(ev) && p.failed == s.failed + RefusedBy(ev)
  {
    hide *;
    AdvanceParts(cfg, s, ev, report, []);
    InputFacts(cfg, ev, report);
    PrepareSame(cfg, s, ev);
    ReportSame(cfg, Prepare(cfg, s, ev).0, report);
  }

  lemma PrepareSame(cfg: Config, s: State, ev: Event)
    requires cfg.Valid() && Fits(cfg, s) && (ev.NodeResponse? ==> NodesFit(cfg, ev.closer))
    ensures var p := Prepare(cfg, s, ev).0;
      p.contacted == s.contacted && p.waiting == s.waiting - StoredBy(ev) - RefusedBy(ev) && p.failed == s.failed + RefusedBy(ev)
  {
    hide SortByDistance, Unseen, SetThresholdMet, Distance, Nearest;
  }

  lemma ReportSame(cfg: Config, s: State, report: Report)
    requires Fits(cfg, s) && (report.WalkFinished? ==> NodesFit(cfg, report.closest))
    ensures var r := NoteReport(cfg, s, report);
      r.contacted == s.contacted && r.waiting == s.waiting && r.failed == s.failed
  {
    hide SortByDistance, Unseen, Distance, Nearest;
  }

  /** The nodes an event names. */
  function Named(cfg: Config, ev: Event): set<Bits> {
    match ev
    case Start => Members(cfg.seeds)
    case NodeResponse(_, closer) => Members(closer)
    case _ => {}
  }

  /** Every node found stays found, and every node the event names is found with it. */
  lemma Remembers(cfg: Config, s: State, ev: Event, report: Report, pick: Bits, k: Bits)
    requires Core(cfg, s) && ValidInput(cfg, ev, report) && Fits(cfg, s) && Picks(cfg, s, ev, report, pick)
    requires k in s.found || k in Named(cfg, ev)
    ensures k in Advance(cfg, s, ev, report, pick).0.found
  {
    hide *;
    CoreFacts(cfg, s);
    InputFacts(cfg, ev, report);
    NeverAskedTwice(cfg, s, ev, report, pick);
    AdvanceParts(cfg, s, ev, report, pick);
    FoundIsSeen(cfg, s, k);
    FoundIsSeen(cfg, Advance(cfg, s, ev, report, pick).0, k);
    PrepareSees(cfg, s, ev);
    ReportSees(cfg, Prepare(cfg, s, ev).0, report);
    ProceedSees(Polled(cfg, s, ev, report), pick);
  }

  lemma FoundIsSeen(cfg: Config, s: State, k: Bits)
    requires Core(cfg, s)
    ensures k in s.found <==> k in s.seen
  {
  }

  lemma PrepareSees(cfg: Config, s: State, ev: Event)
    requires cfg.Valid() && Fits(cfg, s) && (ev.NodeResponse? ==> NodesFit(cfg, ev.closer))
    ensures s.seen + Named(cfg, ev) <= Prepare(cfg, s, ev).0.seen
  {
    hide SortByDistance, Unseen, SetThresholdMet, Distance, Nearest;
  }

  lemma ReportSees(cfg: Config, s: State, report: Report)
    requires Fits(cfg, s) && (report.WalkFinished? ==> NodesFit(cfg, report.closest))
    ensures s.seen <= NoteReport(cfg, s, report).seen
  {
    hide SortByDistance, Unseen, Distance, Nearest;
  }

  lemma ProceedSees(s: State, pick: Bits)
    ensures Proceed(s, pick).0.seen == s.seen
  {
  }

  /** The nodes are asked or about to be. */
  ghost predicate Owed(s: State, nodes: set<Bits>) {
    forall k :: k in nodes ==> k in s.todo || k in s.contacted
  }

  /** When the walk ends, the nodes nearest at that moment have been asked or are about to be. */
  lemma WalkEndsAtNearest(cfg: Config, s: State, ev: Event, report: Report, pick: Bits)
    requires Inv(cfg, s) && ValidInput(cfg, ev, report) && Expected(s, ev) && Fits(cfg, s)
    requires (s.walking || ev.Start?) && !Advance(cfg, s, ev, report, pick).0.walking
    ensures var s' := Advance(cfg, s, ev, report, pick).0; Owed(s', Nearest(cfg, s'))
  {
    hide *;
    InvFacts(cfg, s);
    ExpectedFacts(s, ev);
    InputFacts(cfg, ev, report);
    PrepareOwes(cfg, s, ev);
    PreparedInv(cfg, s, ev);
    AdvanceParts(cfg, s, ev, report, pick);
    ReportOwes(cfg, Prepare(cfg, s, ev).0, report);
    SameFound(cfg, Polled(cfg, s, ev, report), pick);
    PolledKeepsInv(cfg, s, ev, report);
    InvFacts(cfg, Polled(cfg, s, ev, report));
    ProceedOwes(cfg, Polled(cfg, s, ev, report), pick, Nearest(cfg, Polled(cfg, s, ev, report)));
  }

  lemma PreparedInv(cfg: Config, s: State, ev: Event)
    requires Inv(cfg, s) && Fits(cfg, s) && (ev.NodeResponse? ==> NodesFit(cfg, ev.closer)) && Expected(s, ev)
    ensures Inv(cfg, Prepare(cfg, s, ev).0)
  {
    hide *;
    PreparedIsPolled(cfg, s, ev);
    PolledKeepsInv(cfg, s, ev, PoolIdle);
  }

  lemma PreparedIsPolled(cfg: Config, s: State, ev: Event)
    requires Inv(cfg, s) && Fits(cfg, s) && (ev.NodeResponse? ==> NodesFit(cfg, ev.closer))
    ensures ValidInput(cfg, ev, PoolIdle) && Polled(cfg, s, ev, PoolIdle) == Prepare(cfg, s, ev).0
  {
    hide Prepare, Inv;
  }

  /** What is owed stays owed. */
  lemma OwedStays(cfg: Config, s: State, ev: Event, report: Report, pick: Bits, nodes: set<Bits>)
    requires Inv(cfg, s) && ValidInput(cfg, ev, report) && Expected(s, ev) && Fits(cfg, s) && Owed(s, nodes)
    ensures Owed(Advance(cfg, s, ev, report, pick).0, nodes)
  {
    hide *;
    InvFacts(cfg, s);
    InputFacts(cfg, ev, report);
    AdvanceParts(cfg, s, ev, report, pick);
    PrepareTodo(cfg, s, ev);
    PrepareSame(cfg, s, ev);
    ReportTodo(cfg, Prepare(cfg, s, ev).0, report);
    ReportSame(cfg, Prepare(cfg, s, ev).0, report);
    StillOwed(s, Polled(cfg, s, ev, report), nodes);
    PolledKeepsInv(cfg, s, ev, report);
    InvFacts(cfg, Polled(cfg, s, ev, report));
    ProceedOwes(cfg, Polled(cfg, s, ev, report), pick, nodes);
  }

  lemma StillOwed(s: State, p: State, nodes: set<Bits>)
    requires Owed(s, nodes) && s.todo <= p.todo && s.contacted == p.contacted
    ensures Owed(p, nodes)
  {
  }

  lemma PrepareTodo(cfg: Config, s: State, ev: Event)
    requires cfg.Valid() && Fits(cfg, s) && (ev.NodeResponse? ==> NodesFit(cfg, ev.closer))
    ensures s.todo <= Prepare(cfg, s, ev).0.todo
  {
    hide SortByDistance, Unseen, SetThresholdMet, Distance, Unasked, NearEnough;
  }

  lemma ReportTodo(cfg: Config, s: State, report: Report)
    requires Fits(cfg, s) && (report.WalkFinished? ==> NodesFit(cfg, report.closest))
    ensures s.todo <= NoteReport(cfg, s, report).todo
  {
    hide SortByDistance, Unseen, Distance, Unasked, NearEnough;
  }

  lemma ProceedOwes(cfg: Config, s: State, pick: Bits, nodes: set<Bits>)
    requires !s.stopped && Owed(s, nodes)
    ensures Owed(Proceed(s, pick).0, nodes)
  {
  }

  lemma InvFacts(cfg: Config, s: State)
    requires Inv(cfg, s)
    ensures cfg.Valid() && Fits(cfg, s) && !s.stopped
  {
  }

  lemma ExpectedFacts(s: State, ev: Event)
    requires Expected(s, ev)
    ensures !ev.Stop?
  {
  }

  lemma InputFacts(cfg: Config, ev: Event, report: Report)
    requires ValidInput(cfg, ev, report)
    ensures (ev.NodeResponse? ==> NodesFit(cfg, ev.closer)) && (report.WalkFinished? ==> NodesFit(cfg, report.closest))
  {
  }

  /** A list of unseen nodes grows by the next node if that has not been seen. */
  lemma UnseenStep(cfg: Config, seen: set<Bits>, nodes: seq<Bits>, i: nat)
    requires i < |nodes| && NodesFit(cfg, nodes)
    ensures var more, next := Unseen(seen, nodes[..i]), Unseen(seen, nodes[..i + 1]);
      var known := nodes[i] in seen + Members(nodes[..i]);
      && next == (if known then more else more + [nodes[i]])
      && NearEnough(cfg, next) == NearEnough(cfg, more) + (if !known && Near(cfg, nodes[i]) then {nodes[i]} else {})
      && Members(nodes[..i + 1]) == Members(nodes[..i]) + {nodes[i]}
      && NodesFit(cfg, next)
  {
    hide Near;
    var to := nodes[..i + 1];
    assert to[..i] == nodes[..i] && to[i] == nodes[i];
    assert to == nodes[..i] + [nodes[i]];
    UnseenFit(cfg, seen, to);
  }

  /** An advance in parts: the event, the pool's report, and what is done then. */
  lemma AdvanceParts(cfg: Config, s: State, ev: Event, report: Report, pick: Bits)
    requires cfg.Valid() && Fits(cfg, s) && ValidInput(cfg, ev, report)
    ensures var p, polled := Prepare(cfg, s, ev).0, Polled(cfg, s, ev, report);
      && Fits(cfg, p)
      && (polled == p || polled == NoteReport(cfg, p, report))
      && (Advance(cfg, s, ev, report, pick) == Proceed(polled, pick)
          || (report.FindCloser? && Advance(cfg, s, ev, report, pick) == (polled, AskCloser(report.node))))
  {
    hide Prepare, NoteReport, Proceed;
  }

  lemma EndWalkOwes(cfg: Config, s: State)
    requires Inv(cfg, s)
    ensures var e := EndWalk(cfg, s); Owed(e, Nearest(cfg, e))
  {
    hide Ascending, Distinct, Near;
  }

  lemma PrepareOwes(cfg: Config, s: State, ev: Event)
    requires Inv(cfg, s) && Fits(cfg, s) && Expected(s, ev) && (ev.NodeResponse? ==> NodesFit(cfg, ev.closer))
    requires s.walking || ev.Start?
    ensures var p := Prepare(cfg, s, ev).0; !p.walking ==> Owed(p, Nearest(cfg, p))
  {
    var s0 := s.(nextDue := 0);
    assert Core(cfg, s0) && Inv(cfg, s0);
    HandleKeepsInv(cfg, s0, ev);
    var h := HandleEvent(cfg, s0, ev).0;
    assert h.walking by {
      hide SortByDistance, Unseen, Inv;
    }
    EndWalkOwes(cfg, h);
    hide HandleEvent, Inv, Core, EndWalk, Nearest, SetThresholdMet;
  }

  lemma ReportOwes(cfg: Config, s: State, report: Report)
    requires Inv(cfg, s) && Fits(cfg, s) && (report.WalkFinished? ==> NodesFit(cfg, report.closest))
    requires !s.walking ==> Owed(s, Nearest(cfg, s))
    ensures var r := NoteReport(cfg, s, report); !r.walking ==> Owed(r, Nearest(cfg, r))
  {
    match report {
      case WalkFinished(closest) =>
        DiscoverKeepsInv(cfg, s, closest);
        EndWalkOwes(cfg, Discover(cfg, s, closest));
      case WalkTimeout => EndWalkOwes(cfg, s);
      case _ =>
    }
    hide Discover, EndWalk, Inv;
  }

  lemma SameFound(cfg: Config, s: State, pick: Bits)
    ensures var r := Proceed(s, pick).0; Nearest(cfg, r) == Nearest(cfg, s) && r.walking == s.walking
  {
  }

  // ---------- Runs ----------

  /** Every node asked has stored the record, has refused it, or is still waited for, and is one of these only. */
  ghost predicate Ledger(s: State, stored: set<Bits>, refused: set<Bits>) {
    && Members(s.contacted) == s.waiting + stored + refused
    && s.failed == refused
    && stored !! refused && s.waiting !! (stored + refused)
  }

  lemma LedgerKept(cfg: Config, s: State, ev: Event, report: Report, pick: Bits, stored: set<Bits>, refused: set<Bits>)
    requires Inv(cfg, s) && ValidInput(cfg, ev, report) && Expected(s, ev) && Fits(cfg, s) && Picks(cfg, s, ev, report, pick)
    requires Ledger(s, stored, refused)
    ensures Ledger(Advance(cfg, s, ev, report, pick).0, stored + StoredBy(ev), refused + RefusedBy(ev))
  {
    hide *;
    InvFacts(cfg, s);
    PolledKeepsInv(cfg, s, ev, report);
    SameContacted(cfg, s, ev, report);
    AdvanceParts(cfg, s, ev, report, pick);
    var p := Polled(cfg, s, ev, report);
    LedgerPolled(s, p, ev, stored, refused);
    LedgerProceeds(cfg, p, pick, stored + StoredBy(ev), refused + RefusedBy(ev));
  }

  lemma LedgerPolled(s: State, p: State, ev: Event, stored: set<Bits>, refused: set<Bits>)
    requires Ledger(s, stored, refused) && Expected(s, ev)
    requires p.contacted == s.contacted && p.waiting == s.waiting - StoredBy(ev) - RefusedBy(ev) && p.failed == s.failed + RefusedBy(ev)
    ensures Ledger(p, stored + StoredBy(ev), refused + RefusedBy(ev))
  {
  }

  lemma LedgerProceeds(cfg: Config, p: State, pick: Bits, stored: set<Bits>, refused: set<Bits>)
    requires Inv(cfg, p) && Ledger(p, stored, refused)
    ensures Ledger(Proceed(p, pick).0, stored, refused)
  {
    hide Ascending, Distance, Distinct;
    assert Members(p.contacted + [pick]) == Members(p.contacted) + {pick};
    assert pick in p.todo ==> pick !in Members(p.contacted);
  }

  /** What reaches the publisher in one advance, and the node it would pick to ask. */
  datatype Input = Input(ev: Event, report: Report, pick: Bits)

  ghost predicate IsRun(cfg: Config, run: seq<State>, ins: seq<Input>) {
    && |run| == |ins| + 1 && run[0] == Initial()
    && forall i :: 0 <= i < |ins| ==> Takes(cfg, run[i], ins[i], run[i + 1])
  }

  ghost predicate Takes(cfg: Config, s: State, input: Input, s': State) {
    TakesAny(cfg, s, input, s') && Expected(s, input.ev)
  }

  ghost predicate TakesAny(cfg: Config, s: State, input: Input, s': State) {
    && cfg.Valid() && Fits(cfg, s)
    && ValidInput(cfg, input.ev, input.report) && Picks(cfg, s, input.ev, input.report, input.pick)
    && s' == Advance(cfg, s, input.ev, input.report, input.pick).0
  }

  /** A run on any inputs at all, a stop and stray outcomes included. */
  ghost predicate IsAnyRun(cfg: Config, run: seq<State>, ins: seq<Input>) {
    && |run| == |ins| + 1 && run[0] == Initial()
    && forall i :: 0 <= i < |ins| ==> TakesAny(cfg, run[i], ins[i], run[i + 1])
  }

  /** In every state of every run on any inputs, the nodes found are in order and no node has been asked twice. */
  lemma {:induction false} AlwaysAskedOnce(cfg: Config, run: seq<State>, ins: seq<Input>, i: nat)
    requires cfg.Valid() && IsAnyRun(cfg, run, ins) && i <= |ins|
    ensures Core(cfg, run[i])
  {
    if i > 0 {
      AlwaysAskedOnce(cfg, run, ins, i - 1);
      assert TakesAny(cfg, run[i - 1], ins[i - 1], run[i]);
      hide IsAnyRun, Core, Advance, ValidInput, Picks, Fits;
      var input := ins[i - 1];
      NeverAskedTwice(cfg, run[i - 1], input.ev, input.report, input.pick);
    }
  }

  /** The nodes reported to have stored the record, and those reported not to have, in the first n inputs. */
  function Stored(ins: seq<Input>, n: nat): set<Bits>
    requires n <= |ins|
  {
    if n == 0 then {} else Stored(ins, n - 1) + StoredBy(ins[n - 1].ev)
  }

  function Refused(ins: seq<Input>, n: nat): set<Bits>
    requires n <= |ins|
  {
    if n == 0 then {} else Refused(ins, n - 1) + RefusedBy(ins[n - 1].ev)
  }

  /** In every state of every run, whatever the query pool reports, the invariant holds and the nodes asked
      are accounted for. */
  lemma {:induction false} AlwaysAccounted(cfg: Config, run: seq<State>, ins: seq<Input>, i: nat)
    requires cfg.Valid() && IsRun(cfg, run, ins) && i <= |ins|
    ensures Inv(cfg, run[i]) && Ledger(run[i], Stored(ins, i), Refused(ins, i))
  {
    hide *;
    if i == 0 {
      Unstarted(cfg, run, ins);
    } else {
      AlwaysAccounted(cfg, run, ins, i - 1);
      TakenAt(cfg, run, ins, i - 1);
      var input := ins[i - 1];
      StoresOnce(cfg, run[i - 1], input.ev, input.report, input.pick);
      LedgerKept(cfg, run[i - 1], input.ev, input.report, input.pick, Stored(ins, i - 1), Refused(ins, i - 1));
      OneMore(ins, i);
    }
  }

  lemma Unstarted(cfg: Config, run: seq<State>, ins: seq<Input>)
    requires cfg.Valid() && IsRun(cfg, run, ins)
    ensures Inv(cfg, run[0]) && Ledger(run[0], Stored(ins, 0), Refused(ins, 0))
  {
    assert run[0] == Initial();
    hide Takes, IsRun;
  }

  lemma TakenAt(cfg: Config, run: seq<State>, ins: seq<Input>, i: nat)
    requires IsRun(cfg, run, ins) && i < |ins|
    ensures |run| == |ins| + 1 && Takes(cfg, run[i], ins[i], run[i + 1])
    ensures cfg.Valid() && Fits(cfg, run[i])
    ensures ValidInput(cfg, ins[i].ev, ins[i].report) && Expected(run[i], ins[i].ev)
    ensures Picks(cfg, run[i], ins[i].ev, ins[i].report, ins[i].pick)
    ensures run[i + 1] == Advance(cfg, run[i], ins[i].ev, ins[i].report, ins[i].pick).0
  {
    assert Takes(cfg, run[i], ins[i], run[i + 1]);
    hide Fits, ValidInput, Expected, Picks, Advance;
  }

  lemma OneMore(ins: seq<Input>, i: nat)
    requires 0 < i <= |ins|
    ensures Stored(ins, i) == Stored(ins, i - 1) + StoredBy(ins[i - 1].ev)
    ensures Refused(ins, i) == Refused(ins, i - 1) + RefusedBy(ins[i - 1].ev)
  {
  }

  /** The walk ends in the advance from s to s'. */
  predicate EndsWalk(s: State, input: Input, s': State) {
    (s.walking || input.ev.Start?) && !s'.walking
  }

  /** The nodes nearest when a walk ended have been asked, or are about to be, ever after. */
  lemma {:induction false} OwedEverAfter(cfg: Config, run: seq<State>, ins: seq<Input>, j: nat, i: nat)
    requires cfg.Valid() && IsRun(cfg, run, ins) && j < i <= |ins| && EndsWalk(run[j], ins[j], run[j + 1])
    ensures Owed(run[i], Nearest(cfg, run[j + 1]))
    decreases i
  {
    hide *;
    TakenAt(cfg, run, ins, i - 1);
    AlwaysAccounted(cfg, run, ins, i - 1);
    var input := ins[i - 1];
    if i == j + 1 {
      EndedHere(run[j], input, run[i]);
      WalkEndsAtNearest(cfg, run[j], input.ev, input.report, input.pick);
    } else {
      OwedEverAfter(cfg, run, ins, j, i - 1);
      OwedStays(cfg, run[i - 1], input.ev, input.report, input.pick, Nearest(cfg, run[j + 1]));
    }
  }

  lemma EndedHere(s: State, input: Input, s': State)
    requires EndsWalk(s, input, s')
    ensures (s.walking || input.ev.Start?) && !s'.walking
  {
  }

  /** When a run reaches its report that the publish is finished, the nodes reported as contacted are, each
      once, those that stored the record and those that refused it, and the errors are exactly the latter.
      Whenever a walk ended, the nodes nearest at that moment are among them. */
  lemma FinishedAccount(cfg: Config, run: seq<State>, ins: seq<Input>, i: nat)
    requires cfg.Valid() && IsRun(cfg, run, ins) && i < |ins|
    ensures Takes(cfg, run[i], ins[i], run[i + 1])
    ensures var out := Advance(cfg, run[i], ins[i].ev, ins[i].report, ins[i].pick).1;
      out.Finished? ==>
        && Distinct(out.contacted)
        && Members(out.contacted) == Stored(ins, i + 1) + Refused(ins, i + 1)
        && out.errors == Refused(ins, i + 1) && Stored(ins, i + 1) !! Refused(ins, i + 1)
        && (forall j :: 0 <= j <= i && EndsWalk(run[j], ins[j], run[j + 1]) ==> Nearest(cfg, run[j + 1]) <= Members(out.contacted))
  {
    hide *;
    TakenAt(cfg, run, ins, i);
    AlwaysAccounted(cfg, run, ins, i);
    AlwaysAccounted(cfg, run, ins, i + 1);
    var input := ins[i];
    var (s', out) := Advance(cfg, run[i], input.ev, input.report, input.pick);
    StoresOnce(cfg, run[i], input.ev, input.report, input.pick);
    ReportsFailed(cfg, run[i], input);
    if out.Finished? {
      Settled(s', Stored(ins, i + 1), Refused(ins, i + 1));
      forall j | 0 <= j <= i && EndsWalk(run[j], ins[j], run[j + 1])
        ensures Nearest(cfg, run[j + 1]) <= Members(out.contacted)
      {
        OwedEverAfter(cfg, run, ins, j, i + 1);
        NothingOwed(s', Nearest(cfg, run[j + 1]));
      }
    }
  }

  lemma NothingOwed(s: State, nodes: set<Bits>)
    requires Owed(s, nodes) && s.todo == {}
    ensures nodes <= Members(s.contacted)
  {
  }

  lemma Settled(s: State, stored: set<Bits>, refused: set<Bits>)
    requires Ledger(s, stored, refused) && s.waiting == {}
    ensures Members(s.contacted) == stored + refused && s.failed == refused && stored !! refused
  {
  }

  lemma ReportsFailed(cfg: Config, s: State, input: Input)
    requires cfg.Valid() && Fits(cfg, s) && ValidInput(cfg, input.ev, input.report)
    ensures var (s', out) := Advance(cfg, s, input.ev, input.report, input.pick);
      out.Finished? ==> out.errors == s'.failed
  {
    hide Polled, Prepare;
  }
}
