/** What one advance of the probe does to each node, and which report it makes: stated on whether a node is monitored,
    waits for its next check, or is being checked. */
module ProbeLaws {
  import opened Keys
  import opened Sequences
  import opened Clock
  import opened ProbeSpec

  /** Not monitored, waiting for a check that is due then, or to answer a check by its deadline. */
  datatype Status = Unmonitored | Pending(due: Instant) | Checked(deadline: Instant)

  function StatusOf(s: State, k: Bits): Status {
    if k !in s.nodes then Unmonitored
    else if k in s.pending then Pending(s.nodes[k].due)
    else Checked(s.nodes[k].deadline)
  }

  /** The event takes the node out of the routing table. */
  predicate Drops(ev: Event, k: Bits) {
    (ev.Remove? || ev.CheckFailure?) && ev.node == k
  }

  /** The event adds the node, which the routing table holds, or says that a monitored node is there. */
  predicate Renews(s: State, ev: Event, k: Bits) {
    || (ev.Add? && ev.node == k && k in s.rt)
    || ((ev.CheckSuccess? || ev.CheckDropped? || ev.NotifyConnectivity?) && ev.node == k && k in s.nodes)
  }

  /** A node's status once the event has been noted: a node dropped is not monitored, and one renewed is due one
      interval from now. */
  function Noted(cfg: Config, s: State, now: Instant, ev: Event, k: Bits): Status {
    if Drops(ev, k) then Unmonitored
    else if Renews(s, ev, k) then Pending(now + cfg.checkInterval)
    else StatusOf(s, k)
  }

  lemma NotedExactly(cfg: Config, s: State, now: Instant, ev: Event, k: Bits)
    requires Inv(cfg, s) && ValidEvent(cfg, ev)
    ensures var a := Apply(cfg, s, now, ev);
      && Inv(cfg, a)
      && StatusOf(a, k) == Noted(cfg, s, now, ev, k)
      && (k in a.rt <==> k in s.rt && !Drops(ev, k))
      && (k in a.nodes ==> a.nodes[k].cpl == if ev.Add? && Renews(s, ev, k) then CommonPrefixLength(cfg.self, k) else s.nodes[k].cpl)
      && (k in a.nodes && !(ev.Add? && Renews(s, ev, k)) ==> k in s.nodes)
  {
    ApplyKeepsInv(cfg, s, now, ev);
    WithoutMembers(s.ongoing, k);
    hide Without, Distinct, CommonPrefixLength;
  }

  lemma StatusFacts(cfg: Config, s: State, k: Bits)
    requires Inv(cfg, s)
    ensures StatusOf(s, k).Unmonitored? <==> k !in s.nodes
    ensures StatusOf(s, k).Pending? <==> k in s.pending
    ensures StatusOf(s, k).Checked? <==> k in s.ongoing
    ensures !StatusOf(s, k).Unmonitored? ==> k in s.rt
  {
    hide Distinct;
  }

  // ---------- What becomes of a node ----------

  /** One advance, for any node. A node is dropped when the event says so, or when it is reported to have failed for a
      check it has not answered in time. A check begins for a node that is due. Otherwise a node is as the event
      leaves it; so a monitored node that is heard from stays, and is next due one interval from now. */
  lemma NodeExactly(cfg: Config, s: State, now: Instant, ev: Event, s': State, out: Outcome, k: Bits)
    requires Inv(cfg, s) && ValidEvent(cfg, ev) && Advances(cfg, s, now, ev, s', out)
    ensures Inv(cfg, s')
    ensures var noted, after := Noted(cfg, s, now, ev, k), StatusOf(s', k);
      if Drops(ev, k) then after.Unmonitored? && k !in s'.rt && out == NodeFailure(k)
      else if out == NodeFailure(k) then noted.Checked? && noted.deadline <= now && after.Unmonitored? && k !in s'.rt
      else
        && (k in s'.rt <==> k in s.rt)
        && (if out == ConnectivityCheck(k) then noted.Pending? && noted.due <= now && after == Checked(now + cfg.timeout)
            else after == noted)
    ensures k in s'.nodes ==>
      if ev.Add? && Renews(s, ev, k) then s'.nodes[k].cpl == CommonPrefixLength(cfg.self, k)
      else k in s.nodes && s'.nodes[k].cpl == s.nodes[k].cpl
  {
    hide Inv, Apply, Advance, Noted, StatusOf, Drops, Renews, CommonPrefixLength;
    var h :| Foremost(Apply(cfg, s, now, ev), h) && (s', out) == Advance(cfg, s, now, ev, h);
    hide Foremost;
    AdvanceKeepsInv(cfg, s, now, ev, h);
    NotedExactly(cfg, s, now, ev, k);
    AdvanceIs(cfg, s, now, ev, h);
    if ev.Remove? || ev.CheckFailure? {
      DropsOne(cfg, s, now, ev, k);
    } else {
      DropsNone(ev, k);
      HousekeptExactly(cfg, Apply(cfg, s, now, ev), now, h, k);
    }
  }

  lemma AdvanceIs(cfg: Config, s: State, now: Instant, ev: Event, h: Bits)
    requires ValidEvent(cfg, ev) && Foremost(Apply(cfg, s, now, ev), h)
    ensures var a := Apply(cfg, s, now, ev);
      && (a.pending != {} ==> h in a.nodes)
      && Advance(cfg, s, now, ev, h) ==
           if ev.Remove? || ev.CheckFailure? then (a, NodeFailure(ev.node)) else Housekeep(cfg, a, now, h)
  {
    hide Apply, Housekeep;
  }

  lemma DropsNone(ev: Event, k: Bits)
    requires !ev.Remove? && !ev.CheckFailure?
    ensures !Drops(ev, k)
  {
  }

  /** An event that drops a node leaves every other as it is. */
  lemma DropsOne(cfg: Config, s: State, now: Instant, ev: Event, k: Bits)
    requires ev.Remove? || ev.CheckFailure?
    ensures Drops(ev, k) <==> ev.node == k
    ensures Drops(ev, k) ==> Noted(cfg, s, now, ev, k).Unmonitored?
  {
  }

  lemma HousekeptExactly(cfg: Config, a: State, now: Instant, h: Bits, k: Bits)
    requires Inv(cfg, a) && Foremost(a, h)
    ensures var (s', out) := Housekeep(cfg, a, now, h);
      var was, after := StatusOf(a, k), StatusOf(s', k);
      if out == NodeFailure(k) then was.Checked? && was.deadline <= now && after.Unmonitored? && k !in s'.rt
      else
        && (k in s'.rt <==> k in a.rt)
        && (if out == ConnectivityCheck(k) then was.Pending? && was.due <= now && after == Checked(now + cfg.timeout) else after == was)
        && (k in s'.nodes ==> k in a.nodes && s'.nodes[k].cpl == a.nodes[k].cpl)
  {
    hide Without, Distinct, NextDeadline, FirstLapsed;
  }

  /** A monitored node's closeness is that of its key. */
  lemma {:induction false} AlwaysClose(cfg: Config, run: seq<State>, i: nat, k: Bits)
    requires cfg.Valid() && IsRun(cfg, run) && i < |run| && k in run[i].nodes
    ensures |k| == |cfg.self| && run[i].nodes[k].cpl == CommonPrefixLength(cfg.self, k)
    decreases i
  {
    hide CommonPrefixLength, Inv, Advances;
    if i > 0 {
      AlwaysPartitioned(cfg, run, i - 1);
      assert Step(cfg, run[i - 1], run[i]);
      var s, s' := run[i - 1], run[i];
      if !(s.rt <= s'.rt && s' == s.(rt := s'.rt)) {
        var now, ev, out :| ValidEvent(cfg, ev) && Advances(cfg, s, now, ev, s', out);
        NodeExactly(cfg, s, now, ev, s', out, k);
        AddsKey(cfg, s, ev, k);
        hide *;
        if !(ev.Add? && Renews(s, ev, k)) {
          AlwaysClose(cfg, run, i - 1, k);
        }
      } else {
        AlwaysClose(cfg, run, i - 1, k);
      }
    }
  }

  lemma AddsKey(cfg: Config, s: State, ev: Event, k: Bits)
    requires ValidEvent(cfg, ev)
    ensures ev.Add? && Renews(s, ev, k) ==> |k| == |cfg.self|
  {
  }

  // ---------- Which report is made ----------

  /** The node has not answered its check in time, the event included. */
  ghost predicate LapsedNow(cfg: Config, s: State, now: Instant, ev: Event, k: Bits) {
    var n := Noted(cfg, s, now, ev, k); n.Checked? && n.deadline <= now
  }

  /** The node is due for a check, the event included. */
  ghost predicate DueNow(cfg: Config, s: State, now: Instant, ev: Event, k: Bits) {
    var n := Noted(cfg, s, now, ev, k); n.Pending? && n.due <= now
  }

  /** The nodes being checked once the event has been noted. */
  ghost function InCheck(cfg: Config, s: State, now: Instant, ev: Event): set<Bits> {
    set k | k in s.nodes && Noted(cfg, s, now, ev, k).Checked?
  }

  /** Unless the event drops a node: a node past its deadline is reported to have failed, if there is one; then, while
      fewer are being checked than may be, a check begins of a node that is due, if one is, of those due first, and of
      these the closest to self; and otherwise the probe waits, or is idle if none is being checked. */
  lemma OutcomeExactly(cfg: Config, s: State, now: Instant, ev: Event, s': State, out: Outcome)
    requires Inv(cfg, s) && ValidEvent(cfg, ev) && Advances(cfg, s, now, ev, s', out) && !ev.Remove? && !ev.CheckFailure?
    ensures Inv(cfg, s')
    ensures var full := |InCheck(cfg, s, now, ev)| >= cfg.concurrency;
      var lapsed, due := (exists k :: LapsedNow(cfg, s, now, ev, k)), (exists k :: DueNow(cfg, s, now, ev, k));
      && (out.NodeFailure? <==> lapsed)
      && (out.WaitingAtCapacity? <==> !lapsed && full)
      && (out.ConnectivityCheck? <==> !lapsed && !full && due)
      && (out.Idle? <==> !lapsed && !full && !due && InCheck(cfg, s, now, ev) == {})
      && (out.ConnectivityCheck? ==> out.node in s'.nodes && forall k :: k in s'.pending ==>
            && k in s'.nodes
            && (s'.nodes[out.node].due < s'.nodes[k].due
                || (s'.nodes[out.node].due == s'.nodes[k].due && s'.nodes[out.node].cpl >= s'.nodes[k].cpl)))
  {
    hide Inv, Apply, Advance, Noted;
    var h :| Foremost(Apply(cfg, s, now, ev), h) && (s', out) == Advance(cfg, s, now, ev, h);
    hide Foremost;
    AdvanceKeepsInv(cfg, s, now, ev, h);
    AdvanceIs(cfg, s, now, ev, h);
    var a := Apply(cfg, s, now, ev);
    hide *;
    ApplyKeepsInv(cfg, s, now, ev);
    LapsedThen(cfg, s, now, ev);
    DueThen(cfg, s, now, ev, h);
    CheckedThen(cfg, s, now, ev);
    Housekept(cfg, a, now, h);
    ListEmpty(cfg, s, now, ev, a);
  }

  lemma ListEmpty(cfg: Config, s: State, now: Instant, ev: Event, a: State)
    requires |InCheck(cfg, s, now, ev)| == |a.ongoing|
    ensures InCheck(cfg, s, now, ev) == {} <==> |a.ongoing| == 0
  {
    hide InCheck;
  }

  lemma LapsedThen(cfg: Config, s: State, now: Instant, ev: Event)
    requires Inv(cfg, s) && ValidEvent(cfg, ev)
    ensures var a := Apply(cfg, s, now, ev);
      FirstLapsed(a, |a.ongoing|, now).Some? <==> exists k :: LapsedNow(cfg, s, now, ev, k)
  {
    var a := Apply(cfg, s, now, ev);
    var first := FirstLapsed(a, |a.ongoing|, now);
    hide Apply, FirstLapsed, Noted;
    ApplyKeepsInv(cfg, s, now, ev);
    if first.Some? {
      NotedExactly(cfg, s, now, ev, first.value);
      StatusFacts(cfg, a, first.value);
      assert LapsedNow(cfg, s, now, ev, first.value);
    }
    if k :| LapsedNow(cfg, s, now, ev, k) {
      NotedExactly(cfg, s, now, ev, k);
      StatusFacts(cfg, a, k);
      LapsedListed(a, now, k);
    }
  }

  lemma LapsedListed(a: State, now: Instant, k: Bits)
    requires k in a.ongoing && k in a.nodes && a.nodes[k].deadline <= now
    ensures FirstLapsed(a, |a.ongoing|, now).Some?
  {
    var i :| 0 <= i < |a.ongoing| && a.ongoing[i] == k;
    assert Lapsed(a, a.ongoing[i], now);
    hide FirstLapsed;
  }

  lemma DueThen(cfg: Config, s: State, now: Instant, ev: Event, h: Bits)
    requires Inv(cfg, s) && ValidEvent(cfg, ev) && Foremost(Apply(cfg, s, now, ev), h)
    ensures var a := Apply(cfg, s, now, ev);
      (a.pending != {} ==> h in a.nodes) && ((a.pending != {} && a.nodes[h].due <= now) <==> exists k :: DueNow(cfg, s, now, ev, k))
  {
    var a := Apply(cfg, s, now, ev);
    hide Apply, Noted;
    ApplyKeepsInv(cfg, s, now, ev);
    if a.pending != {} && a.nodes[h].due <= now {
      NotedExactly(cfg, s, now, ev, h);
      StatusFacts(cfg, a, h);
      assert DueNow(cfg, s, now, ev, h);
    }
    if k :| DueNow(cfg, s, now, ev, k) {
      NotedExactly(cfg, s, now, ev, k);
      StatusFacts(cfg, a, k);
      assert !NodeLess(a.nodes[k], a.nodes[h]);
    }
    hide Inv;
  }

  lemma CheckedThen(cfg: Config, s: State, now: Instant, ev: Event)
    requires Inv(cfg, s) && ValidEvent(cfg, ev)
    ensures |InCheck(cfg, s, now, ev)| == |Apply(cfg, s, now, ev).ongoing|
  {
    var a := Apply(cfg, s, now, ev);
    hide Apply;
    ApplyKeepsInv(cfg, s, now, ev);
    forall k ensures k in InCheck(cfg, s, now, ev) <==> k in a.ongoing {
      NotedExactly(cfg, s, now, ev, k);
      StatusFacts(cfg, a, k);
    }
    DistinctCount(a.ongoing, InCheck(cfg, s, now, ev));
  }

  lemma Housekept(cfg: Config, a: State, now: Instant, h: Bits)
    requires Inv(cfg, a) && Foremost(a, h)
    ensures a.pending != {} ==> h in a.nodes
    ensures var (s', out) := Housekeep(cfg, a, now, h);
      var lapsed := FirstLapsed(a, |a.ongoing|, now).Some?;
      var full, due := |a.ongoing| >= cfg.concurrency, a.pending != {} && a.nodes[h].due <= now;
      && (out.NodeFailure? <==> lapsed)
      && (out.WaitingAtCapacity? <==> !lapsed && full)
      && (out.ConnectivityCheck? <==> !lapsed && !full && due)
      && (out.Idle? <==> !lapsed && !full && !due && |a.ongoing| == 0)
      && (out.ConnectivityCheck? ==> out.node in s'.nodes && forall k :: k in s'.pending ==>
            && k in s'.nodes
            && (s'.nodes[out.node].due < s'.nodes[k].due
                || (s'.nodes[out.node].due == s'.nodes[k].due && s'.nodes[out.node].cpl >= s'.nodes[k].cpl)))
  {
    hide Without, Distinct, NextDeadline, FirstLapsed;
  }
}
