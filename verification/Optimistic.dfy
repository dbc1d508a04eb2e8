/** The optimistic publisher as the program runs it, proved against the specification in `OptimisticSpec`.
    What the query pool reports when it is advanced is passed in. */
module Optimistic {
  import opened Keys
  import opened Clock
  import opened OptimisticSpec

  class Optimistic {
    const cfg: Config
    var started: bool
    var walking: bool
    var stopped: bool
    var found: seq<Bits>
    var seen: set<Bits>
    var todo: set<Bits>
    var waiting: set<Bits>
    var contacted: seq<Bits>
    var failed: set<Bits>
    var nextDue: Instant

    ghost predicate Valid()
      reads this
    {
      cfg.Valid() && NodesFit(cfg, found)
    }

    /** The publisher's state as a value. */
    ghost function Contents(): State
      reads this
    {
      State(started, walking, stopped, found, seen, todo, waiting, contacted, failed, nextDue)
    }

    constructor (cfg: Config)
      requires cfg.Valid()
      ensures Valid() && this.cfg == cfg && Contents() == Initial()
    {
      this.cfg := cfg;
      started, walking, stopped := false, false, false;
      found, contacted := [], [];
      seen, todo, waiting, failed := {}, {}, {}, {};
      nextDue := 0;
    }

    method Advance(ev: Event, report: Report) returns (out: Outcome, ghost pick: Bits)
      requires Valid() && ValidInput(cfg, ev, report)
      modifies this
      ensures Valid() && Picks(cfg, old(Contents()), ev, report, pick)
      ensures (Contents(), out) == OptimisticSpec.Advance(cfg, old(Contents()), ev, report, pick)
    {
      hide *;
      ghost var s := Contents();
      Checked();
      InputFacts(cfg, ev, report);
      AdvanceIs(cfg, s, ev, report);
      var advance := PrepareFor(ev);
      if advance {
        AdvancePool(report);
        if report.FindCloser? {
          return AskCloser(report.node), SomePick(Contents());
        }
      }
      out, pick := Go();
    }

    lemma Checked()
      requires Valid()
      ensures cfg.Valid() && Fits(cfg, Contents())
    {
    }

    /** Takes in the event, and ends the walk if the nearest nodes are near enough. */
    method PrepareFor(ev: Event) returns (advance: bool)
      requires Valid() && (ev.NodeResponse? ==> NodesFit(cfg, ev.closer))
      modifies this
      ensures Valid() && (Contents(), advance) == Prepare(cfg, old(Contents()), ev)
    {
      ghost var s := Contents();
      nextDue := 0;
      assert Contents() == s.(nextDue := 0);
      advance := HandleEvent(ev);
      hide OptimisticSpec.HandleEvent, EndWalk, SetThresholdMet;
      if walking && !stopped {
        var met := IsSetThresholdMet();
        if met {
          EndTheWalk();
          advance := true;
        }
      }
    }

    /** Stops, asks a node to store the record, waits, or is finished. */
    method Go() returns (out: Outcome, ghost pick: Bits)
      requires Valid()
      modifies this
      ensures Valid() && (old(Contents()).todo != {} ==> pick in old(Contents()).todo)
      ensures (Contents(), out) == Proceed(old(Contents()), pick)
    {
      pick := [];
      if stopped {
        pick := SomePick(Contents());
        failed := failed + todo + waiting;
        todo, waiting := {}, {};
        return Finished(contacted, failed), pick;
      }
      if todo != {} {
        var n :| n in todo;
        pick := n;
        todo := todo - {n};
        waiting := waiting + {n};
        contacted := contacted + [n];
        return StoreRecord(n), pick;
      }
      if waiting != {} || walking {
        return Waiting(nextDue), pick;
      }
      out := if started then Finished(contacted, failed) else Idle;
    }

    method HandleEvent(ev: Event) returns (advance: bool)
      requires Valid() && (ev.NodeResponse? ==> NodesFit(cfg, ev.closer))
      modifies this
      ensures Valid()
      ensures (Contents(), advance) == OptimisticSpec.HandleEvent(cfg, old(Contents()), ev)
    {
      hide OptimisticSpec.Discover;
      advance := false;
      match ev {
        case Start =>
          started := true;
          walking := true;
          DiscoverNodes(cfg.seeds);
          advance := true;
        case Stop =>
          stopped := true;
          advance := walking;
        case NodeResponse(_, closer) =>
          DiscoverNodes(closer);
          advance := true;
        case NodeFailure(_) => advance := true;
        case StoreSuccess(k) => waiting := waiting - {k};
        case StoreFailure(k) =>
          waiting := waiting - {k};
          failed := failed + {k};
        case Poll => advance := true;
      }
    }

    /** Takes in what the query pool reports. */
    method AdvancePool(report: Report)
      requires Valid() && (report.WalkFinished? ==> NodesFit(cfg, report.closest))
      modifies this
      ensures Valid() && Contents() == NoteReport(cfg, old(Contents()), report)
    {
      hide Discover, EndWalk;
      match report {
        case FindCloser(_) =>
        case Waits(due) => nextDue := due;
        case WalkFinished(closest) =>
          DiscoverNodes(closest);
          EndTheWalk();
        case WalkTimeout => EndTheWalk();
        case PoolIdle =>
      }
    }

    /** Records the nodes as found, those not seen before, and queues a store for any near enough on its own. */
    method DiscoverNodes(nodes: seq<Bits>)
      requires Valid() && NodesFit(cfg, nodes)
      modifies this
      ensures Valid() && Contents() == Discover(cfg, old(Contents()), nodes)
    {
      ghost var s := Contents();
      SeeNothing(cfg, s, nodes);
      SeenAll(cfg, s, nodes);
      SeeAll(nodes);
      hide SeenUpTo, Discover;
      found := SortByDistance(cfg.target, found);
    }

    method SeeAll(nodes: seq<Bits>)
      requires Valid() && NodesFit(cfg, nodes) && Contents() == SeenUpTo(cfg, Contents(), nodes, 0)
      modifies this
      ensures Valid() && Contents() == SeenUpTo(cfg, old(Contents()), nodes, |nodes|)
    {
      hide Valid, Contents, NodesFit, SeenUpTo;
      ghost var s := Contents();
      var i := 0;
      while i < |nodes|
        invariant i <= |nodes| && Valid() && Contents() == SeenUpTo(cfg, s, nodes, i)
      {
        SeenStep(cfg, s, nodes, i);
        See(nodes[i]);
        i := i + 1;
      }
    }

    /** Takes note of one node, unless it has been seen before. */
    method See(n: Bits)
      requires Valid() && |n| == |cfg.target|
      modifies this
      ensures Valid()
      ensures var s := old(Contents());
        Contents() == if n in s.seen then s
          else s.(seen := s.seen + {n}, found := s.found + [n], todo := s.todo + (if Near(cfg, n) then {n} else {}))
    {
      if n in seen {
        return;
      }
      seen := seen + {n};
      found := found + [n];
      if Distance(n, cfg.target) as real < cfg.individualThreshold {
        todo := todo + {n};
      }
    }

    /** Whether the mean distance of the nearest nodes is below the set threshold. */
    method IsSetThresholdMet() returns (met: bool)
      requires Valid()
      ensures met == SetThresholdMet(cfg, Contents())
    {
      if |found| < cfg.replicationFactor {
        return false;
      }
      var sum := 0;
      var nearest := found[..cfg.replicationFactor];
      for i := 0 to |nearest|
        invariant sum == SumDistances(cfg.target, nearest[..i])
      {
        assert nearest[..i + 1][..i] == nearest[..i];
        sum := sum + Distance(nearest[i], cfg.target);
      }
      assert nearest[..|nearest|] == nearest;
      met := sum as real / cfg.replicationFactor as real < cfg.setThreshold;
    }

    /** Ends the walk and queues a store for each of the nearest nodes not yet asked. */
    method EndTheWalk()
      requires Valid()
      modifies this
      ensures Valid() && Contents() == EndWalk(cfg, old(Contents()))
    {
      walking := false;
      if stopped {
        return;
      }
      ghost var s := Contents();
      var limit := if cfg.replicationFactor < |found| then cfg.replicationFactor else |found|;
      for i := 0 to limit
        invariant Contents() == s.(todo := todo)
        invariant todo == s.todo + Unasked(s, found[..i])
      {
        UnaskedStep(s, found, i);
        hide Unasked;
        var k := found[i];
        if k !in waiting && k !in failed && k !in contacted {
          todo := todo + {k};
        }
      }
    }
  }

  ghost function SomePick(s: State): (k: Bits)
    ensures s.todo != {} ==> k in s.todo
  {
    if s.todo == {} then [] else var k :| k in s.todo; k
  }

  /** An advance in the order it is carried out. */
  lemma AdvanceIs(cfg: Config, s: State, ev: Event, report: Report)
    requires cfg.Valid() && Fits(cfg, s) && ValidInput(cfg, ev, report)
    ensures (ev.NodeResponse? ==> NodesFit(cfg, ev.closer)) && (report.WalkFinished? ==> NodesFit(cfg, report.closest))
    ensures var (p, advance) := Prepare(cfg, s, ev);
      var polled := if advance then NoteReport(cfg, p, report) else p;
      forall pick ::
        && (Picks(cfg, s, ev, report, pick) <==> (polled.todo != {} ==> pick in polled.todo))
        && OptimisticSpec.Advance(cfg, s, ev, report, pick) ==
             if advance && report.FindCloser? then (polled, AskCloser(report.node)) else Proceed(polled, pick)
  {
    hide Prepare, NoteReport, Proceed;
  }

  /** The state when the first i of the nodes have been noted and the found nodes not yet put in order. */
  ghost function SeenUpTo(cfg: Config, s: State, nodes: seq<Bits>, i: nat): State
    requires i <= |nodes|
  {
    var more := Unseen(s.seen, nodes[..i]);
    s.(found := s.found + more, seen := s.seen + Members(nodes[..i]), todo := s.todo + NearEnough(cfg, more))
  }

  lemma SeeNothing(cfg: Config, s: State, nodes: seq<Bits>)
    ensures SeenUpTo(cfg, s, nodes, 0) == s
  {
    assert nodes[..0] == [];
  }

  lemma SeenStep(cfg: Config, s: State, nodes: seq<Bits>, i: nat)
    requires i < |nodes| && NodesFit(cfg, nodes)
    ensures |nodes[i]| == |cfg.target|
    ensures var (n, u) := (nodes[i], SeenUpTo(cfg, s, nodes, i));
      SeenUpTo(cfg, s, nodes, i + 1) == if n in u.seen then u
        else u.(seen := u.seen + {n}, found := u.found + [n], todo := u.todo + (if Near(cfg, n) then {n} else {}))
  {
    UnseenStep(cfg, s.seen, nodes, i);
    var n, more := nodes[i], Unseen(s.seen, nodes[..i]);
    assert s.found + (more + [n]) == s.found + more + [n] && s.found + more == s.found + (more + []);
    assert s.seen + (Members(nodes[..i]) + {n}) == s.seen + Members(nodes[..i]) + {n};
    hide Unseen, NearEnough, Near, Members;
  }

  lemma SeenAll(cfg: Config, s: State, nodes: seq<Bits>)
    requires Fits(cfg, s) && NodesFit(cfg, nodes)
    ensures var u := SeenUpTo(cfg, s, nodes, |nodes|);
      NodesFit(cfg, u.found) && Discover(cfg, s, nodes) == u.(found := SortByDistance(cfg.target, u.found))
  {
    assert nodes[..|nodes|] == nodes;
    UnseenFit(cfg, s.seen, nodes);
    hide Unseen, NearEnough, SortByDistance;
  }
}
