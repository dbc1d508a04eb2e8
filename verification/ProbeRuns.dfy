/** How often the probe checks a node, over whole runs. */
module ProbeRuns {
  import opened Keys
  import opened Sequences
  import opened Clock
  import opened ProbeSpec

  /** A node waiting for its next check is not due before t. */
  ghost predicate Rested(s: State, k: Bits, t: Instant) {
    k in s.pending && k in s.nodes ==> s.nodes[k].due >= t
  }

  /** The event says that the node is there, or adds it. */
  predicate HearsFrom(ev: Event, k: Bits) {
    (ev.Add? || ev.CheckSuccess? || ev.CheckDropped? || ev.NotifyConnectivity?) && ev.node == k
  }

  lemma ApplyRested(cfg: Config, s: State, now: Instant, ev: Event, k: Bits, t: Instant)
    requires Inv(cfg, s) && ValidEvent(cfg, ev)
    requires HearsFrom(ev, k) || Rested(s, k, t)
    requires now + cfg.checkInterval >= t
    ensures Rested(Apply(cfg, s, now, ev), k, t)
  {
    hide Without, Distinct;
  }

  lemma HousekeepRested(cfg: Config, s: State, now: Instant, h: Bits, k: Bits, t: Instant)
    requires Inv(cfg, s) && Foremost(s, h) && Rested(s, k, t)
    ensures Rested(Housekeep(cfg, s, now, h).0, k, t)
    ensures Housekeep(cfg, s, now, h).1 == ConnectivityCheck(k) ==>
      now >= t && k !in Housekeep(cfg, s, now, h).0.pending
  {
    hide Without, Distinct, FirstLapsed, NextDeadline;
  }

  /** One entry of a probe's log: it was advanced, or the routing table gained nodes by other hands. */
  datatype Move = Advanced(now: Instant, ev: Event, out: Outcome) | Gained
  {
    /** The probe hears from a node, or starts to check it. */
    predicate Concerns(k: Bits) {
      Advanced? && (HearsFrom(ev, k) || out == ConnectivityCheck(k))
    }

    predicate Checks(k: Bits) {
      Advanced? && out == ConnectivityCheck(k)
    }
  }

  ghost predicate Moves(cfg: Config, s: State, m: Move, s': State) {
    match m
    case Gained => s.rt <= s'.rt && s' == s.(rt := s'.rt)
    case Advanced(now, ev, out) => ValidEvent(cfg, ev) && Advances(cfg, s, now, ev, s', out)
  }

  /** A run with its log, in which time does not go back. */
  ghost predicate IsLog(cfg: Config, run: seq<State>, log: seq<Move>) {
    && |run| == |log| + 1 && run[0].nodes == map[] && run[0].pending == {} && run[0].ongoing == []
    && (forall i :: 0 <= i < |log| ==> Moves(cfg, run[i], log[i], run[i + 1]))
    && forall i, j :: 0 <= i < j < |log| && log[i].Advanced? && log[j].Advanced? ==> log[i].now <= log[j].now
  }

  lemma MoveRested(cfg: Config, s: State, m: Move, s': State, k: Bits, t: Instant)
    requires Inv(cfg, s) && Moves(cfg, s, m, s') && (m.Advanced? ==> m.now + cfg.checkInterval >= t)
    requires Rested(s, k, t)
    ensures Inv(cfg, s') && Rested(s', k, t) && (m.Checks(k) ==> m.now >= t)
  {
    if m.Advanced? {
      hide Inv, Advance, Apply, Housekeep, Rested;
      var h :| Foremost(Apply(cfg, s, m.now, m.ev), h) && (s', m.out) == Advance(cfg, s, m.now, m.ev, h);
      hide Foremost;
      AdvanceKeepsInv(cfg, s, m.now, m.ev, h);
      AdvanceRested(cfg, s, m.now, m.ev, h, k, t);
    }
  }

  lemma AdvanceRested(cfg: Config, s: State, now: Instant, ev: Event, h: Bits, k: Bits, t: Instant)
    requires Inv(cfg, s) && ValidEvent(cfg, ev) && Foremost(Apply(cfg, s, now, ev), h)
    requires HearsFrom(ev, k) || Rested(s, k, t)
    requires now + cfg.checkInterval >= t
    ensures Rested(Advance(cfg, s, now, ev, h).0, k, t)
    ensures Advance(cfg, s, now, ev, h).1 == ConnectivityCheck(k) ==>
      now >= t && k !in Advance(cfg, s, now, ev, h).0.pending
  {
    ApplyKeepsInv(cfg, s, now, ev);
    ApplyRested(cfg, s, now, ev, k, t);
    hide Inv, Apply, Housekeep, Foremost, Rested;
    HousekeepRested(cfg, Apply(cfg, s, now, ev), now, h, k, t);
  }

  /** Once the probe has heard from a node, or has started to check it, the node is not due before one
      interval has passed. */
  lemma ConcernRests(cfg: Config, s: State, m: Move, s': State, k: Bits)
    requires Inv(cfg, s) && Moves(cfg, s, m, s') && m.Concerns(k)
    ensures Inv(cfg, s') && Rested(s', k, m.now + cfg.checkInterval)
  {
    hide Inv, Advance, Apply, Housekeep;
    var h :| Foremost(Apply(cfg, s, m.now, m.ev), h) && (s', m.out) == Advance(cfg, s, m.now, m.ev, h);
    hide Foremost;
    AdvanceKeepsInv(cfg, s, m.now, m.ev, h);
    if HearsFrom(m.ev, k) {
      AdvanceRested(cfg, s, m.now, m.ev, h, k, m.now + cfg.checkInterval);
    } else {
      AdvanceRested(cfg, s, m.now, m.ev, h, k, 0);
    }
  }

  lemma {:induction false} StaysRested(cfg: Config, run: seq<State>, log: seq<Move>, i: nat, j: nat, k: Bits)
    requires cfg.Valid() && IsLog(cfg, run, log) && i < j <= |log| && log[i].Concerns(k)
    ensures Inv(cfg, run[j]) && Rested(run[j], k, log[i].now + cfg.checkInterval)
    decreases j
  {
    assert Moves(cfg, run[j - 1], log[j - 1], run[j]);
    hide Rested, Moves, Inv;
    if j == i + 1 {
      LogInv(cfg, run, log, i);
      ConcernRests(cfg, run[i], log[i], run[j], k);
    } else {
      StaysRested(cfg, run, log, i, j - 1, k);
      MoveRested(cfg, run[j - 1], log[j - 1], run[j], k, log[i].now + cfg.checkInterval);
    }
  }

  lemma {:induction false} LogInv(cfg: Config, run: seq<State>, log: seq<Move>, i: nat)
    requires cfg.Valid() && IsLog(cfg, run, log) && i <= |log|
    ensures Inv(cfg, run[i])
  {
    if i > 0 {
      LogInv(cfg, run, log, i - 1);
      var s, m, s' := run[i - 1], log[i - 1], run[i];
      assert Moves(cfg, s, m, s');
      hide Inv, IsLog;
      assert Step(cfg, s, s') by {
        hide Advances;
      }
      StepKeepsInv(cfg, s, s');
    }
  }

  /** No node is checked within one interval of its last check, or of the probe's having heard from it. */
  lemma ChecksSpaced(cfg: Config, run: seq<State>, log: seq<Move>, i: nat, j: nat, k: Bits)
    requires cfg.Valid() && IsLog(cfg, run, log) && i < j < |log| && log[i].Concerns(k) && log[j].Checks(k)
    ensures log[j].now >= log[i].now + cfg.checkInterval
  {
    StaysRested(cfg, run, log, i, j, k);
    assert Moves(cfg, run[j], log[j], run[j + 1]);
    hide Rested, Moves, Inv;
    MoveRested(cfg, run[j], log[j], run[j + 1], k, log[i].now + cfg.checkInterval);
  }
}
