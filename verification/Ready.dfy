/** How the query behaviour is woken: callers that queue events and signal, an event loop that performs
    work and then signals itself or arms a timer, and the timer.

    Each action is one atomic step of one goroutine. Between taking the queue's lock and signalling, a
    caller passes three points: it has appended its event, it has published the queue's length, and it has
    signalled. The event loop reads the published length without the lock. */
module Ready {
  import opened Clock
  import opened Options

  /** What the pool last reported: a request to send, when it is next due (zero if never), or that a query ended. */
  datatype Report = Dispatch | Due(due: Instant) | Ended

  /** Where the event loop is: waiting for a signal, or at a point of Perform and of the check that ends it. */
  datatype Loop =
    | Waiting
    | DrainsOutbound
    | Dequeues
    | Advances(onEvent: bool)
    | LastOutbound
    | Updates(performed: bool)
    | ReadsDepth
    | Arms

  /** storing: a caller has appended and holds the queue's lock. signalling, firing: callers and timers
      that are about to signal. polled: the pool's last advance was a poll, or there has been none. accepted and
      taken: the events queued and performed so far; emitted and handed: how many outbound events were queued and
      handed out. */
  datatype State = State(
    token: bool, inbound: seq<nat>, depth: nat, storing: bool, signalling: nat,
    loop: Loop, outbound: nat, pollAgain: bool, nextDue: Instant, timer: Option<Instant>, firing: nat,
    report: Report, polled: bool, accepted: seq<nat>, taken: seq<nat>, emitted: nat, handed: nat)

  function Initial(): State {
    State(false, [], 0, false, 0, Waiting, 0, false, 0, None, 0, Due(0), true, [], [], 0, 0)
  }

  // ---------- Callers of Notify ----------

  /** A caller appends its event, or drops it when the queue is full. */
  ghost predicate Append(capacity: nat, s: State, s': State, e: nat) {
    && !s.storing
    && s' == if |s.inbound| >= capacity then s
             else s.(inbound := s.inbound + [e], accepted := s.accepted + [e], storing := true)
  }

  ghost predicate Publish(s: State, s': State) {
    s.storing && s' == s.(depth := |s.inbound|, storing := false, signalling := s.signalling + 1)
  }

  ghost predicate Signal(s: State, s': State) {
    s.signalling > 0 && s' == s.(token := true, signalling := s.signalling - 1)
  }

  // ---------- The timer ----------

  ghost predicate Fire(s: State, s': State) {
    s.timer.Some? && s' == s.(timer := None, firing := s.firing + 1)
  }

  ghost predicate FireSignals(s: State, s': State) {
    s.firing > 0 && s' == s.(token := true, firing := s.firing - 1)
  }

  // ---------- The event loop ----------

  ghost predicate Wake(s: State, s': State) {
    s.loop.Waiting? && s.token && s' == s.(token := false, loop := DrainsOutbound)
  }

  ghost predicate DrainOutbound(s: State, s': State) {
    && s.loop.DrainsOutbound?
    && s' == if s.outbound > 0 then s.(outbound := s.outbound - 1, handed := s.handed + 1, loop := Updates(true))
             else s.(loop := Dequeues)
  }

  /** One inbound event is taken; performing it may queue any number of outbound events. */
  ghost predicate Dequeue(s: State, s': State, more: nat) {
    && s.loop.Dequeues? && !s.storing
    && s' == if |s.inbound| > 0
             then s.(inbound := s.inbound[1..], depth := |s.inbound| - 1, taken := s.taken + [s.inbound[0]],
                     outbound := s.outbound + more, emitted := s.emitted + more, loop := Advances(true))
             else s.(loop := Advances(false))
  }

  /** The pool is advanced, on the event just taken or on a poll. A poll follows when the event gave nothing to send. */
  ghost predicate AdvancePool(s: State, s': State, report: Report) {
    && s.loop.Advances?
    && s' == s.(report := report, polled := !s.loop.onEvent,
                pollAgain := report.Ended?,
                nextDue := if report.Due? then report.due else s.nextDue,
                loop := if report.Dispatch? then Updates(true)
                        else if s.loop.onEvent then Advances(false) else LastOutbound)
  }

  ghost predicate TakeLastOutbound(s: State, s': State) {
    && s.loop.LastOutbound?
    && s' == if s.outbound > 0 then s.(outbound := s.outbound - 1, handed := s.handed + 1, loop := Updates(true))
             else s.(loop := Updates(false))
  }

  ghost predicate Update(s: State, s': State) {
    && s.loop.Updates?
    && s' == if s.loop.performed || s.pollAgain || s.outbound != 0 then s.(token := true, loop := Waiting)
             else s.(loop := ReadsDepth)
  }

  ghost predicate ReadDepth(s: State, s': State) {
    && s.loop.ReadsDepth?
    && s' == if s.depth != 0 then s.(token := true, loop := Waiting) else s.(loop := Arms)
  }

  ghost predicate Arm(s: State, s': State) {
    && s.loop.Arms?
    && s' == s.(timer := if s.nextDue == 0 then None else Some(s.nextDue), loop := Waiting)
  }

  ghost predicate LoopStep(s: State, s': State) {
    || Wake(s, s') || DrainOutbound(s, s') || (exists more :: Dequeue(s, s', more))
    || (exists report :: AdvancePool(s, s', report)) || TakeLastOutbound(s, s')
    || Update(s, s') || ReadDepth(s, s') || Arm(s, s')
  }

  ghost predicate OtherStep(capacity: nat, s: State, s': State) {
    || (exists e :: Append(capacity, s, s', e)) || Publish(s, s') || Signal(s, s')
    || Fire(s, s') || FireSignals(s, s')
  }

  ghost predicate Step(capacity: nat, s: State, s': State) {
    LoopStep(s, s') || OtherStep(capacity, s, s')
  }

  // ---------- What every interleaving keeps ----------

  /** A signal is there or on its way from a caller. */
  predicate Woken(s: State) {
    s.token || s.signalling > 0 || s.storing
  }

  function ArmedFor(due: Instant): Option<Instant> {
    if due == 0 then None else Some(due)
  }

  /** The pool said when it was last polled when it is next due, and the timer will say so then. */
  predicate Scheduled(s: State) {
    s.report == Due(s.nextDue) && s.polled && (s.timer == ArmedFor(s.nextDue) || s.firing > 0)
  }

  predicate LoopOk(s: State) {
    match s.loop
    case Waiting => Woken(s) || (s.inbound == [] && s.outbound == 0 && !s.pollAgain && Scheduled(s))
    case Dequeues => s.outbound == 0
    case LastOutbound => s.polled && (s.report == Due(s.nextDue) || s.pollAgain)
    case Updates(performed) => performed || (s.polled && (s.report == Due(s.nextDue) || s.pollAgain) && s.outbound == 0)
    case ReadsDepth => s.polled && s.outbound == 0 && !s.pollAgain && s.report == Due(s.nextDue)
    case Arms => s.polled && s.outbound == 0 && !s.pollAgain && s.report == Due(s.nextDue) && (s.inbound == [] || Woken(s))
    case _ => true
  }

  ghost predicate Inv(capacity: nat, s: State) {
    && |s.inbound| <= capacity
    && s.depth == |s.inbound| - (if s.storing then 1 else 0)
    && s.accepted == s.taken + s.inbound && s.emitted == s.handed + s.outbound
    && (s.report.Due? ==> s.nextDue == s.report.due)
    && LoopOk(s)
  }

  lemma PerformKeepsInv(capacity: nat, s: State, s': State)
    requires Inv(capacity, s) && LoopStep(s, s') && (s.loop.Waiting? || s.loop.DrainsOutbound? || s.loop.Dequeues? || s.loop.Advances?)
    ensures Inv(capacity, s')
  {
    hide Inv, Wake, DrainOutbound, Dequeue, AdvancePool;
    if Wake(s, s') || DrainOutbound(s, s') {
      WakeKeepsInv(capacity, s, s');
    } else if more :| Dequeue(s, s', more) {
      DequeueKeepsInv(capacity, s, s', more);
    } else {
      var report :| AdvancePool(s, s', report);
      AdvanceKeepsInv(capacity, s, s', report);
    }
  }

  lemma WakeKeepsInv(capacity: nat, s: State, s': State)
    requires Inv(capacity, s) && (Wake(s, s') || DrainOutbound(s, s'))
    ensures Inv(capacity, s')
  {
  }

  lemma DequeueKeepsInv(capacity: nat, s: State, s': State, more: nat)
    requires Inv(capacity, s) && Dequeue(s, s', more)
    ensures Inv(capacity, s')
  {
  }

  lemma AdvanceKeepsInv(capacity: nat, s: State, s': State, report: Report)
    requires Inv(capacity, s) && AdvancePool(s, s', report)
    ensures Inv(capacity, s')
  {
  }

  lemma FinishKeepsInv(capacity: nat, s: State, s': State)
    requires Inv(capacity, s) && LoopStep(s, s') && (s.loop.LastOutbound? || s.loop.Updates? || s.loop.ReadsDepth? || s.loop.Arms?)
    ensures Inv(capacity, s')
  {
  }

  lemma OtherStepKeepsInv(capacity: nat, s: State, s': State)
    requires Inv(capacity, s) && OtherStep(capacity, s, s')
    ensures Inv(capacity, s')
  {
  }

  lemma StepKeepsInv(capacity: nat, s: State, s': State)
    requires Inv(capacity, s) && Step(capacity, s, s')
    ensures Inv(capacity, s')
  {
    hide Inv, LoopStep, OtherStep;
    if LoopStep(s, s') {
      if s.loop.Waiting? || s.loop.DrainsOutbound? || s.loop.Dequeues? || s.loop.Advances? {
        PerformKeepsInv(capacity, s, s');
      } else {
        FinishKeepsInv(capacity, s, s');
      }
    } else {
      OtherStepKeepsInv(capacity, s, s');
    }
  }

  ghost predicate IsRun(capacity: nat, run: seq<State>) {
    |run| > 0 && run[0] == Initial() && forall i :: 0 < i < |run| ==> Step(capacity, run[i - 1], run[i])
  }

  lemma {:induction false} AlwaysInv(capacity: nat, run: seq<State>, i: nat)
    requires IsRun(capacity, run) && i < |run|
    ensures Inv(capacity, run[i])
  {
    hide Step, Inv;
    if i > 0 {
      AlwaysInv(capacity, run, i - 1);
      StepKeepsInv(capacity, run[i - 1], run[i]);
    } else {
      InitialInv(capacity);
    }
  }

  lemma InitialInv(capacity: nat)
    ensures Inv(capacity, Initial())
  {
  }

  /** Nobody is between two of its steps: the event loop waits, no caller is queueing or about to signal,
      and no timer that has fired is about to signal. */
  predicate AtRest(s: State) {
    s.loop.Waiting? && !s.storing && s.signalling == 0 && s.firing == 0
  }

  /** No wake-up is lost. In every interleaving, whenever everyone is at rest, work that is waiting has a
      signal waiting with it; and when there is no signal, the pool's last advance was a poll, which said when it
      would next be due, and the timer is armed for exactly that time, or for none if the pool named none. */
  lemma NoLostWakeUp(capacity: nat, run: seq<State>, i: nat)
    requires IsRun(capacity, run) && i < |run| && AtRest(run[i])
    ensures var s := run[i];
      && (s.inbound != [] || s.outbound > 0 || s.pollAgain ==> s.token)
      && (s.token || (s.polled && s.report.Due? && s.timer == ArmedFor(s.report.due)))
  {
    AlwaysInv(capacity, run, i);
  }

  /** Events are performed in the order they were accepted, none twice and none skipped. */
  lemma EventsInOrder(capacity: nat, run: seq<State>, i: nat)
    requires IsRun(capacity, run) && i < |run|
    ensures run[i].accepted == run[i].taken + run[i].inbound && |run[i].inbound| <= capacity
  {
    AlwaysInv(capacity, run, i);
  }

  /** Every outbound event is handed out once; and an inbound event is taken, the first queued, only when no outbound
      event is waiting, so that what waits is only what one event has brought. */
  lemma OutboundFirst(capacity: nat, run: seq<State>, i: nat)
    requires IsRun(capacity, run) && 0 < i < |run|
    ensures var s, s' := run[i - 1], run[i];
      && s'.emitted == s'.handed + s'.outbound
      && (s'.taken != s.taken ==>
            && s.outbound == 0 && s.inbound != [] && s'.taken == s.taken + [s.inbound[0]]
            && s'.outbound == s'.emitted - s.emitted)
  {
    AlwaysInv(capacity, run, i - 1);
    AlwaysInv(capacity, run, i);
    TakesFirst(capacity, run[i - 1], run[i]);
    hide Step, IsRun;
  }

  lemma TakesFirst(capacity: nat, s: State, s': State)
    requires Step(capacity, s, s') && Inv(capacity, s)
    ensures s'.taken != s.taken ==>
      && s.outbound == 0 && s.inbound != [] && s'.taken == s.taken + [s.inbound[0]] && s'.outbound == s'.emitted - s.emitted
  {
    NothingToHand(capacity, s);
    if LoopStep(s, s') {
      LoopTakes(s, s');
    } else {
      OthersTakeNone(capacity, s, s');
    }
    hide *;
  }

  lemma NothingToHand(capacity: nat, s: State)
    requires Inv(capacity, s)
    ensures s.loop.Dequeues? ==> s.outbound == 0
  {
  }

  lemma LoopTakes(s: State, s': State)
    requires LoopStep(s, s')
    ensures s'.taken != s.taken ==>
      && s.loop.Dequeues? && s.inbound != [] && s'.taken == s.taken + [s.inbound[0]]
      && s'.outbound - s.outbound == s'.emitted - s.emitted
  {
  }

  lemma OthersTakeNone(capacity: nat, s: State, s': State)
    requires OtherStep(capacity, s, s')
    ensures s'.taken == s.taken
  {
  }

  // ---------- Every Perform ends ----------

  /** How many steps the event loop still needs before it waits for a signal again. */
  function PerformLeft(l: Loop): nat {
    match l
    case DrainsOutbound => 8
    case Dequeues => 7
    case Advances(onEvent) => if onEvent then 6 else 5
    case LastOutbound => 4
    case Updates(_) => 3
    case ReadsDepth => 2
    case Arms => 1
    case Waiting => 0
  }

  /** A Perform takes at most eight steps of the event loop, to which no other goroutine adds; and the loop can take
      its next one unless a caller holds the queue's lock, which that caller gives back in its own next step. */
  lemma PerformIsShort(capacity: nat, s: State, s': State)
    requires Step(capacity, s, s') && !s.loop.Waiting?
    ensures s'.loop == s.loop || PerformLeft(s'.loop) < PerformLeft(s.loop)
    ensures LoopStep(s, s') ==> s'.loop != s.loop
  {
    hide LoopStep, OtherStep, PerformLeft;
    if LoopStep(s, s') {
      LoopMoves(s, s');
    } else {
      LoopStays(capacity, s, s');
    }
  }

  lemma LoopMoves(s: State, s': State)
    requires LoopStep(s, s') && !s.loop.Waiting?
    ensures PerformLeft(s'.loop) < PerformLeft(s.loop) && s'.loop != s.loop
  {
    hide PerformLeft, Wake, DrainOutbound, Dequeue, AdvancePool, TakeLastOutbound, Update, ReadDepth, Arm;
    if more :| Dequeue(s, s', more) {
      DequeueMoves(s, s', more);
    } else if report :| AdvancePool(s, s', report) {
      AdvanceMoves(s, s', report);
    } else {
      RestMoves(s, s');
    }
  }

  lemma DequeueMoves(s: State, s': State, more: nat)
    requires Dequeue(s, s', more)
    ensures PerformLeft(s'.loop) < PerformLeft(s.loop) && s'.loop != s.loop
  {
  }

  lemma AdvanceMoves(s: State, s': State, report: Report)
    requires AdvancePool(s, s', report)
    ensures PerformLeft(s'.loop) < PerformLeft(s.loop) && s'.loop != s.loop
  {
  }

  lemma RestMoves(s: State, s': State)
    requires Wake(s, s') || DrainOutbound(s, s') || TakeLastOutbound(s, s') || Update(s, s') || ReadDepth(s, s') || Arm(s, s')
    requires !s.loop.Waiting?
    ensures PerformLeft(s'.loop) < PerformLeft(s.loop) && s'.loop != s.loop
  {
  }

  lemma LoopStays(capacity: nat, s: State, s': State)
    requires OtherStep(capacity, s, s')
    ensures s'.loop == s.loop
  {
  }

  lemma LoopCanMove(s: State) returns (s': State)
    requires !s.loop.Waiting? && (s.loop.Dequeues? ==> !s.storing)
    ensures LoopStep(s, s')
  {
    match s.loop {
      case DrainsOutbound =>
        s' := if s.outbound > 0 then s.(outbound := s.outbound - 1, handed := s.handed + 1, loop := Updates(true))
              else s.(loop := Dequeues);
      case Dequeues =>
        s' := if |s.inbound| > 0
              then s.(inbound := s.inbound[1..], depth := |s.inbound| - 1, taken := s.taken + [s.inbound[0]],
                      loop := Advances(true))
              else s.(loop := Advances(false));
        assert Dequeue(s, s', 0);
      case Advances(onEvent) =>
        s' := s.(report := Ended, polled := !onEvent, pollAgain := true, loop := if onEvent then Advances(false) else LastOutbound);
        assert AdvancePool(s, s', Ended);
      case LastOutbound =>
        s' := if s.outbound > 0 then s.(outbound := s.outbound - 1, handed := s.handed + 1, loop := Updates(true))
              else s.(loop := Updates(false));
      case Updates(performed) =>
        s' := if performed || s.pollAgain || s.outbound != 0 then s.(token := true, loop := Waiting) else s.(loop := ReadsDepth);
      case ReadsDepth =>
        s' := if s.depth != 0 then s.(token := true, loop := Waiting) else s.(loop := Arms);
      case Arms =>
        s' := s.(timer := if s.nextDue == 0 then None else Some(s.nextDue), loop := Waiting);
    }
  }
}
