/** What the probe of routing table nodes does: which nodes wait for their next check, which are being
    checked, and what each event and poll leads to. */
module ProbeSpec {
  import opened Keys
  import opened Sequences
  import opened Clock
  import opened Options
  import opened HeapOrder

  datatype Config = Config(self: Bits, checkInterval: nat, concurrency: nat, timeout: nat)
  {
    predicate Valid() {
      checkInterval >= 1 && concurrency >= 1 && timeout >= 1
    }
  }

  /** A monitored node: when its next check is due and, during a check, by when that must be answered. */
  datatype NodeValue = NodeValue(key: Bits, cpl: nat, due: Instant, deadline: Instant)

  /** Earlier checks first, and among checks due together the node closest to self. */
  predicate NodeLess(a: NodeValue, b: NodeValue) {
    if a.due == b.due then a.cpl > b.cpl else a.due < b.due
  }

  lemma NodeLessOrders()
    ensures StrictWeakOrder(NodeLess)
  {
  }

  datatype State = State(nodes: map<Bits, NodeValue>, pending: set<Bits>, ongoing: seq<Bits>, rt: set<Bits>)

  datatype Event =
    | Poll
    | Add(node: Bits)
    | Remove(node: Bits)
    | CheckSuccess(node: Bits)
    | CheckFailure(node: Bits)
    | CheckDropped(node: Bits)
    | NotifyConnectivity(node: Bits)

  datatype Outcome =
    | ConnectivityCheck(node: Bits)
    | NodeFailure(node: Bits)
    | WaitingAtCapacity(nextDue: Instant)
    | WaitingWithCapacity(nextDue: Instant)
    | Idle(nextDue: Instant)
  {
    predicate Progress() {
      ConnectivityCheck? || NodeFailure?
    }
  }

  predicate ValidEvent(cfg: Config, ev: Event) {
    ev.Add? ==> |ev.node| == |cfg.self|
  }

  // ---------- The list of monitored nodes ----------

  /** The index of k in the list, or its length when absent. */
  function Position(list: seq<Bits>, k: Bits): (i: nat)
    ensures i <= |list|
    ensures i < |list| ==> list[i] == k
    ensures forall j :: 0 <= j < i ==> list[j] != k
  {
    if |list| == 0 || list[0] == k then 0 else 1 + Position(list[1..], k)
  }

  /** Removal by moving the last entry into the gap. */
  function Without(list: seq<Bits>, k: Bits): seq<Bits> {
    var i, n := Position(list, k), |list|;
    if i == n then list else list[i := list[n - 1]][..n - 1]
  }

  /** A node takes a new value and waits for its next check; a check under way is forgotten. */
  function Put(s: State, v: NodeValue): State {
    s.(nodes := s.nodes[v.key := v], pending := s.pending + {v.key}, ongoing := Without(s.ongoing, v.key))
  }

  /** A node is dropped from the list, if it is there, and from the routing table. */
  function Forget(s: State, k: Bits): State {
    var t := s.(rt := s.rt - {k});
    if k !in s.nodes then t
    else t.(nodes := s.nodes - {k}, pending := s.pending - {k}, ongoing := Without(s.ongoing, k))
  }

  /** A check of a pending node begins. */
  function Begin(s: State, k: Bits, deadline: Instant): State
    requires k in s.nodes
  {
    s.(nodes := s.nodes[k := s.nodes[k].(deadline := deadline)], pending := s.pending - {k}, ongoing := s.ongoing + [k])
  }

  predicate Lapsed(s: State, k: Bits, now: Instant) {
    k !in s.nodes || s.nodes[k].deadline <= now
  }

  /** The first of the first n ongoing checks that is past its deadline. */
  function FirstLapsed(s: State, n: nat, now: Instant): (r: Option<Bits>)
    requires n <= |s.ongoing|
    ensures r.None? <==> forall i :: 0 <= i < n ==> !Lapsed(s, s.ongoing[i], now)
    ensures r.Some? ==> Lapsed(s, r.value, now) && r.value in s.ongoing
  {
    if n == 0 then None
    else if FirstLapsed(s, n - 1, now).Some? then FirstLapsed(s, n - 1, now)
    else if Lapsed(s, s.ongoing[n - 1], now) then Some(s.ongoing[n - 1]) else None
  }

  /** The earliest deadline of the first n ongoing checks, zero if there are none. */
  function NextDeadline(s: State, n: nat): Instant
    requires n <= |s.ongoing|
  {
    if n == 0 then 0
    else if s.ongoing[n - 1] !in s.nodes then NextDeadline(s, n - 1)
    else Earlier(NextDeadline(s, n - 1), s.nodes[s.ongoing[n - 1]].deadline)
  }

  /** h is a pending node no other comes before; with nothing pending it does not matter. */
  ghost predicate Foremost(s: State, h: Bits) {
    s.pending != {} ==>
      && h in s.pending && h in s.nodes
      && forall k :: k in s.pending && k in s.nodes ==> !NodeLess(s.nodes[k], s.nodes[h])
  }

  /** When the pending node that comes first is due, zero if none is pending. */
  function HeadDue(s: State, h: Bits): Instant
    requires s.pending != {} ==> h in s.nodes
  {
    if s.pending == {} then 0 else s.nodes[h].due
  }

  // ---------- One advance ----------

  function Apply(cfg: Config, s: State, now: Instant, ev: Event): State
    requires ValidEvent(cfg, ev)
  {
    match ev
    case Poll => s
    case Add(k) =>
      if k !in s.rt then s else Put(s, NodeValue(k, CommonPrefixLength(cfg.self, k), now + cfg.checkInterval, 0))
    case Remove(k) => Forget(s, k)
    case CheckFailure(k) => Forget(s, k)
    case CheckSuccess(k) => Renew(cfg, s, now, k)
    case CheckDropped(k) => Renew(cfg, s, now, k)
    case NotifyConnectivity(k) => Renew(cfg, s, now, k)
  }

  /** A monitored node's next check is put off by one interval. */
  function Renew(cfg: Config, s: State, now: Instant, k: Bits): State {
    if k !in s.nodes then s else Put(s, s.nodes[k].(due := now + cfg.checkInterval))
  }

  /** What a poll does when h is the pending node that comes first. */
  function Housekeep(cfg: Config, s: State, now: Instant, h: Bits): (State, Outcome)
    requires s.pending != {} ==> h in s.nodes
  {
    var lapsed := FirstLapsed(s, |s.ongoing|, now);
    if lapsed.Some? then (Forget(s, lapsed.value), NodeFailure(lapsed.value))
    else if |s.ongoing| >= cfg.concurrency then (s, WaitingAtCapacity(NextDeadline(s, |s.ongoing|)))
    else if s.pending == {} || s.nodes[h].due > now then
      var next := Earlier(HeadDue(s, h), NextDeadline(s, |s.ongoing|));
      (s, if |s.ongoing| > 0 then WaitingWithCapacity(next) else Idle(next))
    else (Begin(s, h, now + cfg.timeout), ConnectivityCheck(h))
  }

  function Advance(cfg: Config, s: State, now: Instant, ev: Event, h: Bits): (State, Outcome)
    requires ValidEvent(cfg, ev) && (Apply(cfg, s, now, ev).pending != {} ==> h in Apply(cfg, s, now, ev).nodes)
  {
    if ev.Remove? || ev.CheckFailure? then (Apply(cfg, s, now, ev), NodeFailure(ev.node))
    else Housekeep(cfg, Apply(cfg, s, now, ev), now, h)
  }

  /** One advance leads from s to s' and reports out. Which of several nodes that are equally due and
      equally close comes first is open. */
  ghost predicate Advances(cfg: Config, s: State, now: Instant, ev: Event, s': State, out: Outcome)
    requires ValidEvent(cfg, ev)
  {
    exists h :: Foremost(Apply(cfg, s, now, ev), h) && (s', out) == Advance(cfg, s, now, ev, h)
  }

  // ---------- What every run keeps ----------

  /** Every monitored node is either pending or being checked, never both and never checked twice at
      once; no more checks are under way than allowed; and monitored nodes are in the routing table. */
  ghost predicate Inv(cfg: Config, s: State) {
    && cfg.Valid()
    && (forall k :: k in s.nodes <==> k in s.pending || k in s.ongoing)
    && (forall k :: k in s.pending ==> k !in s.ongoing)
    && Distinct(s.ongoing)
    && |s.ongoing| <= cfg.concurrency
    && (forall k :: k in s.nodes ==> k in s.rt && s.nodes[k].key == k && s.nodes[k].due > 0)
    && (forall k :: k in s.ongoing ==> s.nodes[k].deadline > 0)
  }

  lemma WithoutMembers(list: seq<Bits>, k: Bits)
    requires Distinct(list)
    ensures Distinct(Without(list, k)) && |Without(list, k)| <= |list|
    ensures forall x :: x in Without(list, k) <==> x in list && x != k
  {
    var i, n, r := Position(list, k), |list|, Without(list, k);
    if i < n {
      forall x ensures x in r <==> x in list && x != k {
        if x in list && x != k {
          var j :| 0 <= j < n && list[j] == x;
          assert r[if j == n - 1 then i else j] == x;
        }
        if x in r {
          var j :| 0 <= j < n - 1 && r[j] == x;
          assert x == list[if j == i then n - 1 else j];
        }
      }
    }
  }

  lemma PutKeepsInv(cfg: Config, s: State, v: NodeValue)
    requires Inv(cfg, s) && v.key in s.rt && v.due > 0
    ensures Inv(cfg, Put(s, v))
  {
    WithoutMembers(s.ongoing, v.key);
    hide Without, Distinct;
  }

  lemma ForgetKeepsInv(cfg: Config, s: State, k: Bits)
    requires Inv(cfg, s)
    ensures Inv(cfg, Forget(s, k))
  {
    WithoutMembers(s.ongoing, k);
    hide Without, Distinct;
  }

  /** The partition is kept by every advance. */
  lemma AdvanceKeepsInv(cfg: Config, s: State, now: Instant, ev: Event, h: Bits)
    requires Inv(cfg, s) && ValidEvent(cfg, ev) && Foremost(Apply(cfg, s, now, ev), h)
    ensures Inv(cfg, Advance(cfg, s, now, ev, h).0)
  {
    var a := Apply(cfg, s, now, ev);
    ApplyKeepsInv(cfg, s, now, ev);
    hide Apply;
    HousekeepKeepsInv(cfg, a, now, h);
    hide Housekeep, Inv;
  }

  lemma ApplyKeepsInv(cfg: Config, s: State, now: Instant, ev: Event)
    requires Inv(cfg, s) && ValidEvent(cfg, ev)
    ensures Inv(cfg, Apply(cfg, s, now, ev))
  {
    hide Put, Forget;
    match ev {
      case Poll =>
      case Add(k) =>
        if k in s.rt {
          PutKeepsInv(cfg, s, NodeValue(k, CommonPrefixLength(cfg.self, k), now + cfg.checkInterval, 0));
        }
      case Remove(k) => ForgetKeepsInv(cfg, s, k);
      case CheckFailure(k) => ForgetKeepsInv(cfg, s, k);
      case CheckSuccess(k) => RenewKeepsInv(cfg, s, now, k);
      case CheckDropped(k) => RenewKeepsInv(cfg, s, now, k);
      case NotifyConnectivity(k) => RenewKeepsInv(cfg, s, now, k);
    }
  }

  lemma RenewKeepsInv(cfg: Config, s: State, now: Instant, k: Bits)
    requires Inv(cfg, s)
    ensures Inv(cfg, Renew(cfg, s, now, k))
  {
    hide Put;
    if k in s.nodes {
      PutKeepsInv(cfg, s, s.nodes[k].(due := now + cfg.checkInterval));
    }
  }

  lemma HousekeepKeepsInv(cfg: Config, s: State, now: Instant, h: Bits)
    requires Inv(cfg, s) && Foremost(s, h)
    ensures Inv(cfg, Housekeep(cfg, s, now, h).0)
  {
    var lapsed := FirstLapsed(s, |s.ongoing|, now);
    if lapsed.Some? {
      ForgetKeepsInv(cfg, s, lapsed.value);
    } else if Housekeep(cfg, s, now, h).1.ConnectivityCheck? {
      BeginKeepsInv(cfg, s, h, now + cfg.timeout);
    }
    hide Forget, Begin, Inv;
  }

  lemma BeginKeepsInv(cfg: Config, s: State, h: Bits, deadline: Instant)
    requires Inv(cfg, s) && h in s.pending && |s.ongoing| < cfg.concurrency && deadline > 0
    ensures h in s.nodes && Inv(cfg, Begin(s, h, deadline))
  {
    var r := Begin(s, h, deadline);
    assert forall k :: k in r.ongoing <==> k in s.ongoing || k == h;
  }

  // ---------- Runs ----------

  /** Between two states of a run: an advance, or the routing table gaining nodes by other hands. */
  ghost predicate Step(cfg: Config, s: State, s': State) {
    || (s.rt <= s'.rt && s' == s.(rt := s'.rt))
    || exists now, ev, out :: ValidEvent(cfg, ev) && Advances(cfg, s, now, ev, s', out)
  }

  ghost predicate IsRun(cfg: Config, run: seq<State>) {
    && |run| > 0 && run[0].nodes == map[] && run[0].pending == {} && run[0].ongoing == []
    && forall i :: 0 < i < |run| ==> Step(cfg, run[i - 1], run[i])
  }

  /** Every state of every run keeps the partition. */
  lemma {:induction false} AlwaysPartitioned(cfg: Config, run: seq<State>, i: nat)
    requires cfg.Valid() && IsRun(cfg, run) && i < |run|
    ensures Inv(cfg, run[i])
  {
    if i > 0 {
      AlwaysPartitioned(cfg, run, i - 1);
      StepKeepsInv(cfg, run[i - 1], run[i]);
    }
  }

  lemma StepKeepsInv(cfg: Config, s: State, s': State)
    requires Inv(cfg, s) && Step(cfg, s, s')
    ensures Inv(cfg, s')
  {
    if !(s.rt <= s'.rt && s' == s.(rt := s'.rt)) {
      var now, ev, out :| ValidEvent(cfg, ev) && Advances(cfg, s, now, ev, s', out);
      var h :| Foremost(Apply(cfg, s, now, ev), h) && (s', out) == Advance(cfg, s, now, ev, h);
      hide Advance, Apply, Foremost;
      AdvanceKeepsInv(cfg, s, now, ev, h);
    }
  }

  // ---------- Waking up ----------

  /** Some pending node always comes first. */
  lemma {:induction false} ForemostExists(s: State, among: set<Bits>) returns (h: Bits)
    requires among != {} && forall k :: k in among ==> k in s.nodes
    ensures h in among && forall k :: k in among ==> !NodeLess(s.nodes[k], s.nodes[h])
    decreases |among|
  {
    h :| h in among;
    var rest := among - {h};
    if rest != {} {
      var g := ForemostExists(s, rest);
      if NodeLess(s.nodes[g], s.nodes[h]) {
        h := g;
      }
    }
  }

  /** Every event and every poll has an outcome. */
  lemma AdvanceExists(cfg: Config, s: State, now: Instant, ev: Event) returns (s': State, out: Outcome)
    requires Inv(cfg, s) && ValidEvent(cfg, ev)
    ensures Advances(cfg, s, now, ev, s', out)
  {
    var a := Apply(cfg, s, now, ev);
    ApplyKeepsInv(cfg, s, now, ev);
    hide Apply, Advance;
    var h: Bits := [];
    if a.pending != {} {
      h := ForemostExists(a, a.pending);
    }
    assert Foremost(a, h);
    s', out := Advance(cfg, s, now, ev, h).0, Advance(cfg, s, now, ev, h).1;
  }

  /** The earliest deadline is a deadline of some ongoing check and none is earlier. */
  lemma {:induction false} NextDeadlineIsLeast(cfg: Config, s: State, n: nat)
    requires Inv(cfg, s) && n <= |s.ongoing|
    ensures NextDeadline(s, n) == 0 <==> n == 0
    ensures n > 0 ==> exists i :: 0 <= i < n && s.nodes[s.ongoing[i]].deadline == NextDeadline(s, n)
    ensures forall i :: 0 <= i < n ==> NextDeadline(s, n) <= s.nodes[s.ongoing[i]].deadline
  {
    if n > 0 {
      NextDeadlineIsLeast(cfg, s, n - 1);
      assert s.ongoing[n - 1] in s.ongoing;
      if NextDeadline(s, n) == s.nodes[s.ongoing[n - 1]].deadline {
      } else {
        var i :| 0 <= i < n - 1 && s.nodes[s.ongoing[i]].deadline == NextDeadline(s, n - 1);
      }
    }
  }

  /** What a waiting or idle report promises about a state: NextDue is none or still to come, nothing
      is past its deadline, and nothing pending could start. */
  ghost predicate Rests(cfg: Config, s: State, now: Instant, out: Outcome) {
    && !out.Progress()
    && (out.nextDue == 0 || out.nextDue > now)
    && exists h :: Foremost(s, h) && (s, out) == Housekeep(cfg, s, now, h)
  }

  lemma WaitingRests(cfg: Config, s: State, now: Instant, ev: Event, s': State, out: Outcome)
    requires Inv(cfg, s) && ValidEvent(cfg, ev) && Advances(cfg, s, now, ev, s', out) && !out.Progress()
    ensures Inv(cfg, s') && Rests(cfg, s', now, out)
  {
    var a := Apply(cfg, s, now, ev);
    ApplyKeepsInv(cfg, s, now, ev);
    var h :| Foremost(a, h) && (s', out) == Advance(cfg, s, now, ev, h);
    assert s' == a && (s', out) == Housekeep(cfg, a, now, h);
    hide Apply, Advances, Advance;
    NextDeadlineIsLeast(cfg, a, |a.ongoing|);
    NotYetLapsed(cfg, a, now);
    hide FirstLapsed, NextDeadline;
  }

  lemma NotYetLapsed(cfg: Config, s: State, t: Instant)
    requires Inv(cfg, s)
    ensures FirstLapsed(s, |s.ongoing|, t).None? <==> |s.ongoing| == 0 || t < NextDeadline(s, |s.ongoing|)
  {
    var n := |s.ongoing|;
    NextDeadlineIsLeast(cfg, s, n);
    hide FirstLapsed, NextDeadline;
    if n > 0 {
      var i :| 0 <= i < n && s.nodes[s.ongoing[i]].deadline == NextDeadline(s, n);
      assert Lapsed(s, s.ongoing[i], t) <==> NextDeadline(s, n) <= t;
      assert forall j :: 0 <= j < n ==> s.ongoing[j] in s.ongoing;
    }
  }

  /** Which node comes first does not affect when it is due. */
  lemma HeadDueUnique(s: State, h: Bits, g: Bits)
    requires Foremost(s, h) && Foremost(s, g)
    ensures HeadDue(s, h) == HeadDue(s, g)
    ensures s.pending != {} ==> h in s.nodes && g in s.nodes && s.nodes[h].due == s.nodes[g].due
  {
  }

  /** The probe wakes up exactly when it must. After any report that it waits or is idle: NextDue is
      none or after now; a poll before NextDue, or at any time when there is none, changes nothing and
      reports the same; and a poll at or after NextDue fails a check past its deadline or begins one
      that is due. */
  lemma WakeUpIsExact(cfg: Config, s: State, now: Instant, ev: Event, s': State, out: Outcome, t: Instant, s'': State, out': Outcome)
    requires Inv(cfg, s) && ValidEvent(cfg, ev) && Advances(cfg, s, now, ev, s', out) && !out.Progress()
    requires Advances(cfg, s', t, Poll, s'', out')
    ensures out.nextDue == 0 || out.nextDue > now
    ensures out.nextDue == 0 || t < out.nextDue ==> s'' == s' && out' == out
    ensures out.nextDue != 0 && out.nextDue <= t ==>
      || (out'.NodeFailure? && out'.node in s'.ongoing && s'.nodes[out'.node].deadline <= t && s'' == Forget(s', out'.node))
      || (out'.ConnectivityCheck? && out'.node in s'.pending && s'.nodes[out'.node].due <= t && Foremost(s', out'.node)
          && s'' == Begin(s', out'.node, t + cfg.timeout))
  {
    WaitingRests(cfg, s, now, ev, s', out);
    var h :| Foremost(s', h) && (s', out) == Housekeep(cfg, s', now, h);
    assert exists g :: Foremost(s', g) && (s'', out') == Housekeep(cfg, s', t, g);
    var g :| Foremost(s', g) && (s'', out') == Housekeep(cfg, s', t, g);
    hide Advances, Rests, Apply;
    PolledAt(cfg, s', now, h, t, g);
    assert s'.pending != {} ==> g in s'.pending;
    hide *;
  }

  /** A poll at t of a state that rested at now: whether it makes progress depends on t alone. */
  lemma PolledAt(cfg: Config, s: State, now: Instant, h: Bits, t: Instant, g: Bits)
    requires Inv(cfg, s) && Foremost(s, h) && Foremost(s, g) && !Housekeep(cfg, s, now, h).1.Progress()
    ensures var out, (s', out') := Housekeep(cfg, s, now, h).1, Housekeep(cfg, s, t, g);
      && (out.nextDue == 0 || t < out.nextDue ==> s' == s && out' == out)
      && (out.nextDue != 0 && out.nextDue <= t ==>
        || (out'.NodeFailure? && out'.node in s.ongoing && s.nodes[out'.node].deadline <= t && s' == Forget(s, out'.node))
        || (out'.ConnectivityCheck? && out'.node == g && g in s.pending && s.nodes[g].due <= t
            && s' == Begin(s, g, t + cfg.timeout)))
  {
    NextDeadlineIsLeast(cfg, s, |s.ongoing|);
    NotYetLapsed(cfg, s, t);
    HeadDueUnique(s, h, g);
    assert s.pending != {} ==> g in s.pending && s.nodes[g].due > 0;
    hide FirstLapsed, NextDeadline, Forget, Begin, NodeLess, Foremost, Distinct;
  }
}
