/** Requests and the slots they hold, as callers, senders, evictions and Close interleave.

    Each action is one atomic step of one goroutine: a channel operation, or what is done under the
    handler map's lock between two of them. `place` is kept beside the program's own state: it says for
    every request that holds a slot where that request is. The slot counters are the program's own and
    are changed only as the program changes them. */
module Network {
  import opened Keys
  import opened Sequences

  type Req = nat
  type Id = nat

  datatype Config = Config(capacity: nat, nodeCapacity: nat)
  {
    predicate Valid() {
      capacity >= 1 && nodeCapacity >= 1
    }
  }

  /** Where a handler's goroutine is: waiting in its select, sending a request, having returned the
      handler's slot but not yet the shared one, asking to be evicted, or gone. */
  datatype Run = Select | Sending(r: Req) | HalfReleased(r: Req) | AsksEviction | Exited

  datatype Handler = Handler(node: Bits, held: nat, queue: seq<Req>, stopped: bool, run: Run)

  /** What closing a handler returns to: the eviction of it alone, or a Close of all. */
  datatype After = ToEvict | ToClose(rest: set<Id>)

  /** Where the holder of the handler map's lock is. */
  datatype Lock =
    | Free
    | Notifying(r: Req, node: Bits)
    | Chosen(r: Req, h: Id)
    | HasGlobal(r: Req, h: Id)
    | GivesBack(r: Req)
    | HasBoth(r: Req, h: Id)
    | Evicting(h: Id)
    | Removing(h: Id)
    | Closing(rest: set<Id>)
    | Draining(h: Id, after: After)
    | DrainFull(h: Id, r: Req, after: After)
    | DrainHalf(h: Id, r: Req, after: After)

  /** Where a request is that holds the shared slot: on its way to a handler that has not given it a slot,
      with a slot of the handler but not yet queued, queued, being sent or discarded, or with only the
      shared slot left to return. */
  datatype Place =
    | Entering
    | Handed(h: Id)
    | Queued(h: Id)
    | InSend(h: Id)
    | Sent(h: Id)
    | InDrain(h: Id)
    | Drained(h: Id)
  {
    /** Whether the request also holds a slot of handler h. */
    predicate HoldsNode(id: Id) {
      (Handed? || Queued? || InSend? || InDrain?) && h == id
    }

    /** Whether a handler has accepted the request. */
    predicate Accepted() {
      !Entering? && !Handed?
    }
  }

  datatype State = State(
    handlers: map<Id, Handler>, current: map<Bits, Id>, global: nat, lock: Lock, next: Id,
    place: map<Req, Place>, seen: set<Req>, accepted: set<Req>, sent: set<Req>, discarded: set<Req>)

  function Initial(): State {
    State(map[], map[], 0, Free, 0, map[], {}, {}, {}, {})
  }

  // ---------- Notify ----------

  /** A caller takes the lock to hand over a new request. */
  ghost predicate BeginNotify(s: State, s': State, r: Req, node: Bits) {
    s.lock.Free? && r !in s.seen && s' == s.(lock := Notifying(r, node), seen := s.seen + {r})
  }

  /** The node's handler is looked up, or made. */
  ghost predicate Choose(s: State, s': State) {
    && s.lock.Notifying?
    && var (r, node) := (s.lock.r, s.lock.node);
      if node in s.current then s' == s.(lock := Chosen(r, s.current[node]))
      else s' == s.(lock := Chosen(r, s.next), next := s.next + 1, current := s.current[node := s.next],
                    handlers := s.handlers[s.next := Handler(node, 0, [], false, Select)])
  }

  ghost predicate AcquireGlobal(cfg: Config, s: State, s': State) {
    && s.lock.Chosen?
    && s' == if s.global < cfg.capacity
             then s.(global := s.global + 1, place := s.place[s.lock.r := Entering], lock := HasGlobal(s.lock.r, s.lock.h))
             else s.(lock := Free)
  }

  ghost predicate AcquireNode(cfg: Config, s: State, s': State) {
    && s.lock.HasGlobal? && s.lock.h in s.handlers
    && var (r, h) := (s.lock.r, s.lock.h);
      s' == if s.handlers[h].held < cfg.nodeCapacity
            then s.(handlers := s.handlers[h := s.handlers[h].(held := s.handlers[h].held + 1)],
                    place := s.place[r := Handed(h)], lock := HasBoth(r, h))
            else s.(lock := GivesBack(r))
  }

  ghost predicate GiveBack(s: State, s': State) {
    s.lock.GivesBack? && s' == Forgotten(s, s.lock.r).(lock := Free)
  }

  /** The queue takes the request, which it can only do while it has room. */
  ghost predicate Enqueue(cfg: Config, s: State, s': State) {
    && s.lock.HasBoth? && s.lock.h in s.handlers
    && var (r, h) := (s.lock.r, s.lock.h);
      && |s.handlers[h].queue| < cfg.nodeCapacity
      && s' == s.(handlers := s.handlers[h := s.handlers[h].(queue := s.handlers[h].queue + [r])],
                  place := s.place[r := Queued(h)], lock := Free, accepted := s.accepted + {r})
  }

  /** Returns the shared slot of a request that holds no other. A release with no slot taken does nothing. */
  function Forgotten(s: State, r: Req): State {
    s.(global := if s.global > 0 then s.global - 1 else 0, place := s.place - {r})
  }

  function Dec(n: nat): nat {
    if n > 0 then n - 1 else 0
  }

  // ---------- A handler's goroutine ----------

  ghost predicate Take(s: State, s': State, h: Id) {
    && h in s.handlers && s.handlers[h].run.Select? && |s.handlers[h].queue| > 0
    && var r := s.handlers[h].queue[0];
      s' == s.(handlers := s.handlers[h := s.handlers[h].(queue := s.handlers[h].queue[1..], run := Sending(r))],
               place := s.place[r := InSend(h)])
  }

  /** The request is sent, or skipped because its caller has gone; the handler's slot is returned. */
  ghost predicate FinishSend(s: State, s': State, h: Id) {
    && h in s.handlers && s.handlers[h].run.Sending?
    && var r := s.handlers[h].run.r;
      s' == s.(handlers := s.handlers[h := s.handlers[h].(held := Dec(s.handlers[h].held), run := HalfReleased(r))],
               place := s.place[r := Sent(h)])
  }

  /** The shared slot is returned. */
  ghost predicate FinishRelease(s: State, s': State, h: Id) {
    && h in s.handlers && s.handlers[h].run.HalfReleased?
    && var r := s.handlers[h].run.r;
      s' == Forgotten(s, r).(handlers := s.handlers[h := s.handlers[h].(run := Select)], sent := s.sent + {r})
  }

  /** The idle timer fires; it may do so at any time. */
  ghost predicate IdleFires(s: State, s': State, h: Id) {
    && h in s.handlers && s.handlers[h].run.Select?
    && s' == s.(handlers := s.handlers[h := s.handlers[h].(run := AsksEviction)])
  }

  ghost predicate SeesStop(s: State, s': State, h: Id) {
    && h in s.handlers && s.handlers[h].run.Select? && s.handlers[h].stopped
    && s' == s.(handlers := s.handlers[h := s.handlers[h].(run := Exited)])
  }

  // ---------- Eviction and Close ----------

  ghost predicate BeginEvict(s: State, s': State, h: Id) {
    s.lock.Free? && h in s.handlers && s.handlers[h].run.AsksEviction? && s' == s.(lock := Evicting(h))
  }

  /** A handler replaced by another, or not idle, is refused and goes on. */
  ghost predicate CheckEvict(s: State, s': State) {
    && s.lock.Evicting? && s.lock.h in s.handlers
    && var h := s.lock.h;
      var n := s.handlers[h];
      s' == if (n.node in s.current && s.current[n.node] == h) && n.held == 0 then s.(lock := Removing(h))
            else s.(lock := Free, handlers := s.handlers[h := n.(run := Select)])
  }

  ghost predicate Remove(s: State, s': State) {
    && s.lock.Removing? && s.lock.h in s.handlers
    && var h := s.lock.h;
      s' == s.(current := s.current - {s.handlers[h].node}, lock := Draining(h, ToEvict),
               handlers := s.handlers[h := s.handlers[h].(stopped := true)])
  }

  ghost predicate BeginClose(s: State, s': State) {
    s.lock.Free? && s' == s.(lock := Closing(s.current.Values))
  }

  /** Close stops the handlers one by one; one already stopped stays as it is. */
  ghost predicate CloseNext(s: State, s': State, h: Id) {
    && s.lock.Closing? && h in s.lock.rest && h in s.handlers
    && s' == if s.handlers[h].stopped then s.(lock := Closing(s.lock.rest - {h}))
             else s.(lock := Draining(h, ToClose(s.lock.rest - {h})),
                     handlers := s.handlers[h := s.handlers[h].(stopped := true)])
  }

  ghost predicate EndClose(s: State, s': State) {
    s.lock.Closing? && s.lock.rest == {} && s' == s.(lock := Free, current := map[])
  }

  /** A queued request of a stopped handler is taken out to be discarded, or there is none left. */
  ghost predicate Drain(s: State, s': State) {
    && s.lock.Draining? && s.lock.h in s.handlers
    && var (h, after) := (s.lock.h, s.lock.after);
      var n := s.handlers[h];
      s' == if |n.queue| > 0
            then s.(handlers := s.handlers[h := n.(queue := n.queue[1..])],
                    place := s.place[n.queue[0] := InDrain(h)], lock := DrainFull(h, n.queue[0], after))
            else if after.ToEvict? then s.(lock := Free, handlers := s.handlers[h := n.(run := Exited)])
            else s.(lock := Closing(after.rest))
  }

  ghost predicate DrainNode(s: State, s': State) {
    && s.lock.DrainFull? && s.lock.h in s.handlers
    && var (h, r) := (s.lock.h, s.lock.r);
      s' == s.(handlers := s.handlers[h := s.handlers[h].(held := Dec(s.handlers[h].held))],
               place := s.place[r := Drained(h)], lock := DrainHalf(h, r, s.lock.after))
  }

  ghost predicate DrainGlobal(s: State, s': State) {
    && s.lock.DrainHalf?
    && s' == Forgotten(s, s.lock.r).(lock := Draining(s.lock.h, s.lock.after), discarded := s.discarded + {s.lock.r})
  }

  // ---------- Steps ----------

  /** A step of whoever holds the lock. */
  ghost predicate LockStep(cfg: Config, s: State, s': State) {
    || Choose(s, s') || AcquireGlobal(cfg, s, s') || AcquireNode(cfg, s, s') || GiveBack(s, s') || Enqueue(cfg, s, s')
    || CheckEvict(s, s') || Remove(s, s') || (exists h :: CloseNext(s, s', h)) || EndClose(s, s')
    || Drain(s, s') || DrainNode(s, s') || DrainGlobal(s, s')
  }

  /** A step of the goroutine of handler h. */
  ghost predicate RunStep(s: State, s': State, h: Id) {
    || Take(s, s', h) || FinishSend(s, s', h) || FinishRelease(s, s', h) || IdleFires(s, s', h) || SeesStop(s, s', h)
  }

  ghost predicate Step(cfg: Config, s: State, s': State) {
    || (exists r, node :: BeginNotify(s, s', r, node))
    || (exists h :: BeginEvict(s, s', h))
    || BeginClose(s, s')
    || LockStep(cfg, s, s')
    || (exists h :: RunStep(s, s', h))
  }

  // ---------- The invariant ----------

  /** The requests that hold a slot of handler h. */
  function NodeHeld(place: map<Req, Place>, h: Id): set<Req> {
    set r | r in place && place[r].HoldsNode(h)
  }

  predicate At(s: State, r: Req, p: Place) {
    r in s.place && s.place[r] == p
  }

  /** Whether the lock holder is closing handler h. */
  predicate ClosingNow(l: Lock, h: Id) {
    (l.Draining? || l.DrainFull? || l.DrainHalf?) && l.h == h
  }

  /** A handler has given out as many slots as requests hold, and no more than it may; its queue and its
      goroutine have exactly the requests placed there; and once it has been closed its queue is empty. */
  ghost predicate HandlerOk(cfg: Config, s: State, h: Id)
    requires h in s.handlers
  {
    var n := s.handlers[h];
    && h < s.next
    && n.held == |NodeHeld(s.place, h)| <= cfg.nodeCapacity
    && Distinct(n.queue)
    && (forall r :: r in n.queue ==> At(s, r, Queued(h)))
    && (n.run.Sending? ==> At(s, n.run.r, InSend(h)))
    && (n.run.HalfReleased? ==> At(s, n.run.r, Sent(h)))
    && (n.run.Exited? ==> n.stopped)
    && (n.stopped && !ClosingNow(s.lock, h) ==> n.queue == [])
  }

  /** A request that has a place is where its place says. */
  predicate AtHome(s: State, r: Req)
    requires r in s.place
  {
    match s.place[r]
    case Entering => (s.lock.GivesBack? || s.lock.HasGlobal?) && s.lock.r == r
    case Handed(h) => s.lock == HasBoth(r, h)
    case Queued(h) => h in s.handlers && r in s.handlers[h].queue
    case InSend(h) => h in s.handlers && s.handlers[h].run == Sending(r)
    case Sent(h) => h in s.handlers && s.handlers[h].run == HalfReleased(r)
    case InDrain(h) => s.lock.DrainFull? && s.lock.h == h && s.lock.r == r
    case Drained(h) => s.lock.DrainHalf? && s.lock.h == h && s.lock.r == r
  }

  /** An accepted request is with its handler until it has been sent or discarded, one or the other. */
  ghost predicate ReqOk(s: State, r: Req) {
    && (r in s.place ==> AtHome(s, r) && r in s.seen && r !in s.sent && r !in s.discarded)
    && (r in s.accepted <==> r in s.sent || r in s.discarded || (r in s.place && s.place[r].Accepted()))
    && (r in s.accepted ==> r in s.seen)
    && !(r in s.sent && r in s.discarded)
  }

  ghost predicate DrainOk(s: State, h: Id, after: After) {
    && h in s.handlers && s.handlers[h].stopped
    && (match after
        case ToEvict => s.handlers[h].run.AsksEviction? && s.handlers[h].queue == []
        case ToClose(rest) => rest <= s.handlers.Keys)
  }

  /** A handler the lock holder has looked up is live. */
  predicate Live(s: State, h: Id) {
    h in s.handlers && !s.handlers[h].stopped && s.handlers[h].node in s.current && s.current[s.handlers[h].node] == h
  }

  ghost predicate LockOk(s: State) {
    match s.lock
    case Free => true
    case Notifying(r, _) => r in s.seen && r !in s.place && r !in s.accepted
    case Chosen(r, h) => r in s.seen && r !in s.place && r !in s.accepted && Live(s, h)
    case HasGlobal(r, h) => At(s, r, Entering) && Live(s, h)
    case GivesBack(r) => At(s, r, Entering)
    case HasBoth(r, h) => At(s, r, Handed(h)) && Live(s, h)
    case Evicting(h) => h in s.handlers && s.handlers[h].run.AsksEviction?
    case Removing(h) => Live(s, h) && s.handlers[h].run.AsksEviction? && s.handlers[h].held == 0
    case Closing(rest) => rest <= s.handlers.Keys
    case Draining(h, after) => DrainOk(s, h, after)
    case DrainFull(h, r, after) => At(s, r, InDrain(h)) && DrainOk(s, h, after) && after.ToClose?
    case DrainHalf(h, r, after) => At(s, r, Drained(h)) && DrainOk(s, h, after) && after.ToClose?
  }

  /** A Close is under way. */
  predicate InClose(l: Lock) {
    l.Closing? || ((l.Draining? || l.DrainFull? || l.DrainHalf?) && l.after.ToClose?)
  }

  /** A handler that can be looked up is one of its node's, and live unless a Close is under way. */
  ghost predicate CurrentOk(s: State, n: Bits)
    requires n in s.current
  {
    && s.current[n] in s.handlers && s.handlers[s.current[n]].node == n
    && (InClose(s.lock) || !s.handlers[s.current[n]].stopped)
  }

  ghost predicate Inv(cfg: Config, s: State) {
    && cfg.Valid()
    && s.global == |s.place| <= cfg.capacity
    && (forall h :: h in s.handlers ==> HandlerOk(cfg, s, h))
    && (forall r {:trigger ReqOk(s, r)} :: ReqOk(s, r))
    && LockOk(s)
    && (forall n :: n in s.current ==> CurrentOk(s, n))
  }
}
