/** In which order a node's requests are sent, by which handler, and when a request is refused and a handler evicted or
    closed. */
module NetworkLaws {
  import opened Keys
  import opened Sequences
  import opened Network
  import opened NetworkProofs

  // ---------- The steps of the lock holder ----------

  ghost predicate NotifyStep(cfg: Config, s: State, s': State) {
    Choose(s, s') || AcquireGlobal(cfg, s, s') || AcquireNode(cfg, s, s') || GiveBack(s, s') || Enqueue(cfg, s, s')
  }

  ghost predicate EvictStep(s: State, s': State) {
    CheckEvict(s, s') || Remove(s, s') || (exists h :: CloseNext(s, s', h)) || EndClose(s, s')
  }

  ghost predicate DrainStep(s: State, s': State) {
    Drain(s, s') || DrainNode(s, s') || DrainGlobal(s, s')
  }

  lemma LockSteps(cfg: Config, s: State, s': State)
    requires LockStep(cfg, s, s')
    ensures NotifyStep(cfg, s, s') || EvictStep(s, s') || DrainStep(s, s')
  {
    hide Choose, AcquireGlobal, AcquireNode, GiveBack, Enqueue, CheckEvict, Remove, CloseNext, EndClose, Drain, DrainNode, DrainGlobal;
  }

  /** The kinds of step there are. */
  ghost predicate Steps(cfg: Config, s: State, s': State) {
    || (exists r, node :: BeginNotify(s, s', r, node))
    || (exists h :: BeginEvict(s, s', h))
    || BeginClose(s, s')
    || NotifyStep(cfg, s, s') || EvictStep(s, s') || DrainStep(s, s')
    || (exists h :: RunStep(s, s', h))
  }

  lemma StepKinds(cfg: Config, s: State, s': State)
    requires Step(cfg, s, s')
    ensures Steps(cfg, s, s')
  {
    if LockStep(cfg, s, s') {
      LockSteps(cfg, s, s');
    }
    hide LockStep, RunStep, BeginNotify, BeginEvict, BeginClose, NotifyStep, EvictStep, DrainStep;
  }

  // ---------- One live handler ----------

  /** The handlers that a Close has still to stop. */
  function Rest(l: Lock): set<Id>
    requires InClose(l)
  {
    if l.Closing? then l.rest else l.after.rest
  }

  /** A handler that is not stopped is the one that its node's requests go to, and one that a Close under way will
      still stop. */
  ghost predicate OneLive(s: State) {
    && (forall h :: h in s.handlers && !s.handlers[h].stopped ==> Live(s, h))
    && (InClose(s.lock) ==> forall h :: h in s.handlers && !s.handlers[h].stopped ==> h in Rest(s.lock))
  }

  lemma OneLiveKept(cfg: Config, s: State, s': State)
    requires Inv(cfg, s) && Step(cfg, s, s') && OneLive(s)
    ensures OneLive(s')
  {
    hide *;
    NextIsNew(cfg, s);
    LockFacts(cfg, s);
    StepKinds(cfg, s, s');
    OneLiveNext(cfg, s, s');
  }

  lemma OneLiveNext(cfg: Config, s: State, s': State)
    requires Steps(cfg, s, s') && OneLive(s) && s.next !in s.handlers && (s.lock.Removing? ==> Live(s, s.lock.h))
    ensures OneLive(s')
  {
    hide NotifyStep, EvictStep, DrainStep, RunStep, OneLive, BeginNotify, BeginEvict, BeginClose;
    if NotifyStep(cfg, s, s') {
      OneLiveNotify(cfg, s, s');
    } else if EvictStep(s, s') {
      OneLiveEvict(s, s');
    } else if DrainStep(s, s') {
      OneLiveDrain(s, s');
    } else if g :| RunStep(s, s', g) {
      OneLiveRun(s, s', g);
    } else {
      OneLiveBegin(s, s');
    }
  }

  lemma OneLiveBegin(s: State, s': State)
    requires (exists r, node :: BeginNotify(s, s', r, node)) || (exists h :: BeginEvict(s, s', h)) || BeginClose(s, s')
    requires OneLive(s)
    ensures OneLive(s')
  {
  }

  lemma LockFacts(cfg: Config, s: State)
    requires Inv(cfg, s)
    ensures s.lock.Removing? ==> Live(s, s.lock.h)
    ensures s.lock.Draining? ==> s.lock.h in s.handlers && s.handlers[s.lock.h].stopped
    ensures s.lock.HasBoth? ==> Live(s, s.lock.h) && At(s, s.lock.r, Handed(s.lock.h))
    ensures s.lock.Chosen? || s.lock.HasGlobal? ==> Live(s, s.lock.h)
  {
    hide HandlerOk, ReqOk, CurrentOk;
  }

  lemma OneLiveNotify(cfg: Config, s: State, s': State)
    requires NotifyStep(cfg, s, s') && OneLive(s) && s.next !in s.handlers
    ensures OneLive(s')
  {
  }

  lemma OneLiveEvict(s: State, s': State)
    requires EvictStep(s, s') && OneLive(s) && (s.lock.Removing? ==> Live(s, s.lock.h))
    ensures OneLive(s')
  {
  }

  lemma OneLiveDrain(s: State, s': State)
    requires DrainStep(s, s') && OneLive(s)
    ensures OneLive(s')
  {
  }

  lemma OneLiveRun(s: State, s': State, g: Id)
    requires RunStep(s, s', g) && OneLive(s)
    ensures OneLive(s')
  {
  }

  /** In every state of every run, a node has at most one handler that is not stopped. */
  lemma {:induction false} AlwaysOneLive(cfg: Config, run: seq<State>, i: nat)
    requires cfg.Valid() && IsRun(cfg, run) && i < |run|
    ensures OneLive(run[i])
    ensures forall g, h ::
      && g in run[i].handlers && h in run[i].handlers && run[i].handlers[g].node == run[i].handlers[h].node
      && !run[i].handlers[g].stopped && !run[i].handlers[h].stopped
      ==> g == h
  {
    hide *;
    if i > 0 {
      AlwaysOneLive(cfg, run, i - 1);
      AlwaysInv(cfg, run, i - 1);
      Consecutive(cfg, run, i);
      OneLiveKept(cfg, run[i - 1], run[i]);
    } else {
      NoneAtStart(cfg, run);
    }
    LiveIsOne(run[i]);
  }

  lemma NoneAtStart(cfg: Config, run: seq<State>)
    requires IsRun(cfg, run)
    ensures OneLive(run[0])
  {
    hide Step;
  }

  lemma LiveIsOne(s: State)
    requires OneLive(s)
    ensures forall g, h ::
      && g in s.handlers && h in s.handlers && s.handlers[g].node == s.handlers[h].node
      && !s.handlers[g].stopped && !s.handlers[h].stopped
      ==> g == h
  {
  }

  // ---------- A handler's queue ----------

  /** One step of a handler's queue: nothing, or the first request goes to be sent, or in a Close to be discarded, or
      the request that has both slots joins the end. */
  ghost predicate QueueMoves(s: State, s': State, h: Id)
    requires h in s.handlers
  {
    && h in s'.handlers && s'.handlers[h].node == s.handlers[h].node
    && var q, q' := s.handlers[h].queue, s'.handlers[h].queue;
      || q' == q
      || (q != [] && q' == q[1..] && s.handlers[h].run.Select? && s'.handlers[h].run == Sending(q[0]))
      || (q != [] && q' == q[1..] && InClose(s.lock) && s'.lock.DrainFull? && s'.lock.h == h && s'.lock.r == q[0])
      || (s.lock.HasBoth? && s.lock.h == h && q' == q + [s.lock.r])
  }

  /** A handler has in hand what it took from its queue. */
  ghost predicate SendMoves(s: State, s': State, h: Id)
    requires h in s.handlers
  {
    h in s'.handlers && (s'.handlers[h].run.Sending? ==>
      || s.handlers[h].run == s'.handlers[h].run
      || s.handlers[h].queue == [s'.handlers[h].run.r] + s'.handlers[h].queue)
  }

  lemma QueueStep(cfg: Config, s: State, s': State, h: Id)
    requires Inv(cfg, s) && Step(cfg, s, s') && h in s.handlers
    ensures QueueMoves(s, s', h) && SendMoves(s, s', h)
  {
    hide *;
    NextIsNew(cfg, s);
    DrainsAsMeant(cfg, s);
    StepKinds(cfg, s, s');
    QueueNext(cfg, s, s', h);
  }

  lemma QueueNext(cfg: Config, s: State, s': State, h: Id)
    requires Steps(cfg, s, s') && h in s.handlers && s.next !in s.handlers
    requires s.lock.Draining? && s.lock.after.ToEvict? ==> s.lock.h in s.handlers && s.handlers[s.lock.h].queue == []
    ensures QueueMoves(s, s', h) && SendMoves(s, s', h)
  {
    hide NotifyStep, EvictStep, DrainStep, RunStep, QueueMoves, SendMoves, BeginNotify, BeginEvict, BeginClose;
    if NotifyStep(cfg, s, s') {
      QueueStepNotify(cfg, s, s', h);
    } else if EvictStep(s, s') {
      QueueStepEvict(s, s', h);
    } else if DrainStep(s, s') {
      QueueStepDrain(s, s', h);
    } else if g :| RunStep(s, s', g) {
      QueueStepRun(s, s', g, h);
    } else {
      QueueStepBegin(s, s', h);
    }
  }

  lemma QueueStepBegin(s: State, s': State, h: Id)
    requires (exists r, node :: BeginNotify(s, s', r, node)) || (exists h :: BeginEvict(s, s', h)) || BeginClose(s, s')
    requires h in s.handlers
    ensures QueueMoves(s, s', h) && SendMoves(s, s', h)
  {
  }

  lemma QueueStepNotify(cfg: Config, s: State, s': State, h: Id)
    requires NotifyStep(cfg, s, s') && h in s.handlers && s.next !in s.handlers
    ensures QueueMoves(s, s', h) && SendMoves(s, s', h)
  {
  }

  lemma QueueStepEvict(s: State, s': State, h: Id)
    requires EvictStep(s, s') && h in s.handlers
    ensures QueueMoves(s, s', h) && SendMoves(s, s', h)
  {
  }

  lemma QueueStepDrain(s: State, s': State, h: Id)
    requires DrainStep(s, s') && h in s.handlers
    requires s.lock.Draining? && s.lock.after.ToEvict? ==> s.lock.h in s.handlers && s.handlers[s.lock.h].queue == []
    ensures QueueMoves(s, s', h) && SendMoves(s, s', h)
  {
  }

  lemma QueueStepRun(s: State, s': State, g: Id, h: Id)
    requires RunStep(s, s', g) && h in s.handlers
    ensures QueueMoves(s, s', h) && SendMoves(s, s', h)
  {
  }

  // ---------- First in, first out ----------

  ghost predicate QueuedAt(s: State, r: Req, h: Id) {
    h in s.handlers && r in s.handlers[h].queue
  }

  /** a is in front of b in the queue of h. */
  ghost predicate InFront(s: State, a: Req, b: Req, h: Id) {
    h in s.handlers && exists x, y :: 0 <= x < y < |s.handlers[h].queue| && s.handlers[h].queue[x] == a && s.handlers[h].queue[y] == b
  }

  /** While a is queued at h, b is queued for the same node only behind it. */
  ghost predicate Behind(s: State, a: Req, b: Req, h: Id) {
    QueuedAt(s, a, h) ==> forall g :: QueuedAt(s, b, g) && s.handlers[g].node == s.handlers[h].node ==> g == h && InFront(s, a, b, h)
  }

  lemma QueuedAccepted(cfg: Config, s: State, r: Req, h: Id)
    requires Inv(cfg, s) && QueuedAt(s, r, h)
    ensures r in s.accepted && Distinct(s.handlers[h].queue)
  {
    assert HandlerOk(cfg, s, h);
    assert ReqOk(s, r);
    hide HandlerOk, ReqOk, CurrentOk, LockOk;
    QueuedPlace(cfg, s, r, h);
  }

  lemma QueuedPlace(cfg: Config, s: State, r: Req, h: Id)
    requires QueuedAt(s, r, h) && HandlerOk(cfg, s, h) && ReqOk(s, r)
    ensures r in s.accepted && Distinct(s.handlers[h].queue)
  {
    assert At(s, r, Queued(h));
  }

  /** The request that joins a queue has not been accepted before. */
  lemma JoinsNew(cfg: Config, s: State)
    requires Inv(cfg, s) && s.lock.HasBoth?
    ensures s.lock.r !in s.accepted && Live(s, s.lock.h)
  {
    assert ReqOk(s, s.lock.r);
    LockFacts(cfg, s);
    hide HandlerOk, CurrentOk, LockOk;
  }

  /** A handler made by a step has an empty queue. */
  lemma NewEmpty(cfg: Config, s: State, s': State, h: Id)
    requires Step(cfg, s, s') && h in s'.handlers && h !in s.handlers
    ensures s'.handlers[h].queue == []
  {
    StepKinds(cfg, s, s');
    MakesEmpty(cfg, s, s', h);
    hide *;
  }

  lemma MakesEmpty(cfg: Config, s: State, s': State, h: Id)
    requires Steps(cfg, s, s') && h in s'.handlers && h !in s.handlers
    ensures s'.handlers[h].queue == []
  {
    assert !EvictStep(s, s') && !DrainStep(s, s');
    hide EvictStep, DrainStep;
  }

  /** A request accepted before is queued after a step only where it was. */
  lemma StaysQueued(cfg: Config, s: State, s': State, r: Req, h: Id)
    requires Inv(cfg, s) && Step(cfg, s, s') && r in s.accepted && QueuedAt(s', r, h)
    ensures QueuedAt(s, r, h)
  {
    hide Inv, Step;
    if h !in s.handlers {
      NewEmpty(cfg, s, s', h);
    }
    assert h in s.handlers;
    QueueStep(cfg, s, s', h);
    if s.lock.HasBoth? {
      JoinsNew(cfg, s);
    }
    hide SendMoves;
  }

  /** Requests in order stay in order while the first is queued. */
  lemma OrderKept(cfg: Config, s: State, s': State, a: Req, b: Req, h: Id)
    requires Inv(cfg, s) && Step(cfg, s, s') && InFront(s, a, b, h) && QueuedAt(s', a, h)
    ensures InFront(s', a, b, h)
  {
    hide Inv, Step;
    QueueStep(cfg, s, s', h);
    QueuedAccepted(cfg, s, a, h);
    var q, q' := s.handlers[h].queue, s'.handlers[h].queue;
    var x, y :| 0 <= x < y < |q| && q[x] == a && q[y] == b;
    if |q'| > 0 && q' == q[1..] {
      assert x > 0 by {
        assert a in q[1..];
      }
      assert q'[x - 1] == a && q'[y - 1] == b;
    } else {
      assert q'[x] == a && q'[y] == b;
    }
    hide SendMoves;
  }

  /** A request joins the queue of a node behind every one queued for it. */
  lemma JoinsBehind(cfg: Config, s: State, s': State, a: Req, b: Req, h: Id, g: Id)
    requires Inv(cfg, s) && Step(cfg, s, s') && OneLive(s) && QueuedAt(s, a, h) && QueuedAt(s', a, h)
    requires QueuedAt(s', b, g) && !QueuedAt(s, b, g) && g in s.handlers && s.handlers[g].node == s.handlers[h].node
    ensures g == h && InFront(s', a, b, h)
  {
    hide Inv, Step;
    QueueStep(cfg, s, s', g);
    assert s.lock.HasBoth? && s.lock.h == g && s.lock.r == b && s'.handlers[g].queue == s.handlers[g].queue + [b];
    JoinsNew(cfg, s);
    if s.handlers[h].stopped {
      ClosedIsEmpty(cfg, s, h);
    }
    assert Live(s, h);
    hide OneLive, SendMoves;
    var q := s.handlers[h].queue;
    var x :| 0 <= x < |q| && q[x] == a;
    assert s'.handlers[h].queue[x] == a && s'.handlers[h].queue[|q|] == b;
  }

  lemma BehindKept(cfg: Config, s: State, s': State, a: Req, b: Req, h: Id)
    requires Inv(cfg, s) && Step(cfg, s, s') && OneLive(s) && a in s.accepted && Behind(s, a, b, h)
    ensures Behind(s', a, b, h)
  {
    hide Inv, Step, OneLive;
    if QueuedAt(s', a, h) {
      StaysQueued(cfg, s, s', a, h);
      QueueStep(cfg, s, s', h);
      forall g | QueuedAt(s', b, g) && s'.handlers[g].node == s'.handlers[h].node ensures g == h && InFront(s', a, b, h) {
        if g !in s.handlers {
          NewEmpty(cfg, s, s', g);
        }
        assert g in s.handlers;
        QueueStep(cfg, s, s', g);
        if QueuedAt(s, b, g) {
          OrderKept(cfg, s, s', a, b, h);
        } else {
          JoinsBehind(cfg, s, s', a, b, h, g);
        }
      }
    }
  }

  lemma {:induction false} AlwaysBehind(cfg: Config, run: seq<State>, i: nat, j: nat, a: Req, b: Req, h: Id)
    requires cfg.Valid() && IsRun(cfg, run) && i <= j < |run|
    requires a in run[i].accepted && Behind(run[i], a, b, h)
    ensures a in run[j].accepted && Behind(run[j], a, b, h)
  {
    hide *;
    if i < j {
      AlwaysBehind(cfg, run, i, j - 1, a, b, h);
      AlwaysInv(cfg, run, j - 1);
      AlwaysOneLive(cfg, run, j - 1);
      Consecutive(cfg, run, j);
      BehindKept(cfg, run[j - 1], run[j], a, b, h);
      AcceptedStays(cfg, run[j - 1], run[j]);
    }
  }

  lemma AcceptedStays(cfg: Config, s: State, s': State)
    requires Step(cfg, s, s')
    ensures s.accepted <= s'.accepted
  {
  }

  /** First in, first out: if a is queued for a node while b is not, and b is queued for that node later, then b does
      not leave the queue before a has left it, whichever handlers the node has meanwhile had. */
  lemma {:induction false} FirstInFirstOut(cfg: Config, run: seq<State>, i: nat, j: nat, k: nat, a: Req, b: Req, h: Id, g: Id)
    requires cfg.Valid() && IsRun(cfg, run) && i <= j <= k < |run|
    requires QueuedAt(run[i], a, h) && forall x :: !QueuedAt(run[i], b, x)
    requires QueuedAt(run[j], b, g) && h in run[j].handlers && run[j].handlers[g].node == run[j].handlers[h].node
    ensures QueuedAt(run[k], a, h) ==> g == h && InFront(run[k], a, b, h)
    decreases k
  {
    hide *;
    if j < k {
      AlwaysInv(cfg, run, i);
      AlwaysInv(cfg, run, k - 1);
      Consecutive(cfg, run, k);
      QueuedAccepted(cfg, run[i], a, h);
      NotYetBehind(run[i], a, b, h);
      AlwaysBehind(cfg, run, i, k - 1, a, b, h);
      FirstInFirstOut(cfg, run, i, j, k - 1, a, b, h, g);
      if QueuedAt(run[k], a, h) {
        StaysQueued(cfg, run[k - 1], run[k], a, h);
        OrderKept(cfg, run[k - 1], run[k], a, b, h);
      }
    } else {
      AlwaysInv(cfg, run, i);
      QueuedAccepted(cfg, run[i], a, h);
      NotYetBehind(run[i], a, b, h);
      AlwaysBehind(cfg, run, i, j, a, b, h);
      ThenBehind(run[j], a, b, h, g);
    }
  }

  lemma NotYetBehind(s: State, a: Req, b: Req, h: Id)
    requires forall x :: !QueuedAt(s, b, x)
    ensures Behind(s, a, b, h)
  {
    hide QueuedAt;
  }

  lemma ThenBehind(s: State, a: Req, b: Req, h: Id, g: Id)
    requires Behind(s, a, b, h) && QueuedAt(s, b, g) && h in s.handlers && s.handlers[g].node == s.handlers[h].node
    ensures QueuedAt(s, a, h) ==> g == h && InFront(s, a, b, h)
  {
    hide InFront;
  }

  /** A handler sends next the request that was first in its queue. */
  lemma SendsFirst(cfg: Config, run: seq<State>, i: nat, h: Id)
    requires cfg.Valid() && IsRun(cfg, run) && 0 < i < |run| && h in run[i - 1].handlers
    ensures h in run[i].handlers
    ensures run[i].handlers[h].run.Sending? && run[i].handlers[h].run != run[i - 1].handlers[h].run ==>
      run[i - 1].handlers[h].queue == [run[i].handlers[h].run.r] + run[i].handlers[h].queue
  {
    hide *;
    AlwaysInv(cfg, run, i - 1);
    Consecutive(cfg, run, i);
    QueueStep(cfg, run[i - 1], run[i], h);
    SentMoved(run[i - 1], run[i], h);
  }

  lemma SentMoved(s: State, s': State, h: Id)
    requires h in s.handlers && SendMoves(s, s', h)
    ensures h in s'.handlers
    ensures s'.handlers[h].run.Sending? && s'.handlers[h].run != s.handlers[h].run ==>
      s.handlers[h].queue == [s'.handlers[h].run.r] + s'.handlers[h].queue
  {
  }

  // ---------- The right handler ----------

  /** Wherever the request is, it is for that node. */
  ghost predicate For(s: State, r: Req, node: Bits) {
    && (s.lock.Notifying? && s.lock.r == r ==> s.lock.node == node)
    && ((s.lock.Chosen? || s.lock.HasGlobal? || s.lock.HasBoth?) && s.lock.r == r ==>
          s.lock.h in s.handlers && s.handlers[s.lock.h].node == node)
    && (r in s.place && !s.place[r].Entering? ==> s.place[r].h in s.handlers && s.handlers[s.place[r].h].node == node)
  }

  lemma ForKept(cfg: Config, s: State, s': State, r: Req, node: Bits)
    requires Inv(cfg, s) && Step(cfg, s, s') && r in s.seen && For(s, r, node)
    ensures r in s'.seen && For(s', r, node)
  {
    hide *;
    NextIsNew(cfg, s);
    CurrentNodes(cfg, s);
    PlacesKept(cfg, s);
    StepKinds(cfg, s, s');
    ForNext(cfg, s, s', r, node);
  }

  lemma ForNext(cfg: Config, s: State, s': State, r: Req, node: Bits)
    requires Steps(cfg, s, s') && r in s.seen && For(s, r, node) && s.next !in s.handlers && Placed(s)
    requires forall n :: n in s.current ==> s.current[n] in s.handlers && s.handlers[s.current[n]].node == n
    ensures r in s'.seen && For(s', r, node)
  {
    hide NotifyStep, EvictStep, DrainStep, RunStep, For, Placed, BeginNotify, BeginEvict, BeginClose;
    if NotifyStep(cfg, s, s') {
      ForNotify(cfg, s, s', r, node);
    } else if EvictStep(s, s') {
      ForEvict(s, s', r, node);
    } else if DrainStep(s, s') {
      ForDrain(s, s', r, node);
    } else if g :| RunStep(s, s', g) {
      ForRun(s, s', g, r, node);
    } else {
      ForBegin(s, s', r, node);
    }
  }

  lemma ForBegin(s: State, s': State, r: Req, node: Bits)
    requires (exists q, n :: BeginNotify(s, s', q, n)) || (exists h :: BeginEvict(s, s', h)) || BeginClose(s, s')
    requires r in s.seen && For(s, r, node)
    ensures r in s'.seen && For(s', r, node)
  {
  }

  lemma CurrentNodes(cfg: Config, s: State)
    requires Inv(cfg, s)
    ensures forall n :: n in s.current ==> s.current[n] in s.handlers && s.handlers[s.current[n]].node == n
  {
    hide HandlerOk, ReqOk, LockOk;
  }

  /** Where the requests are that a step moves on. */
  ghost predicate Placed(s: State) {
    && (forall h, x :: h in s.handlers && 0 <= x < |s.handlers[h].queue| ==> At(s, s.handlers[h].queue[x], Queued(h)))
    && (forall h :: h in s.handlers && s.handlers[h].run.Sending? ==> At(s, s.handlers[h].run.r, InSend(h)))
    && (s.lock.DrainFull? ==> At(s, s.lock.r, InDrain(s.lock.h)))
  }

  lemma PlacesKept(cfg: Config, s: State)
    requires Inv(cfg, s)
    ensures Placed(s)
  {
    forall h | h in s.handlers
      ensures forall x :: 0 <= x < |s.handlers[h].queue| ==> At(s, s.handlers[h].queue[x], Queued(h))
      ensures s.handlers[h].run.Sending? ==> At(s, s.handlers[h].run.r, InSend(h))
    {
      assert HandlerOk(cfg, s, h);
    }
    hide ReqOk, CurrentOk, HandlerOk;
  }

  lemma ForNotify(cfg: Config, s: State, s': State, r: Req, node: Bits)
    requires NotifyStep(cfg, s, s') && r in s.seen && For(s, r, node) && s.next !in s.handlers
    requires forall n :: n in s.current ==> s.current[n] in s.handlers && s.handlers[s.current[n]].node == n
    ensures r in s'.seen && For(s', r, node)
  {
    hide Choose, AcquireGlobal, AcquireNode, GiveBack, Enqueue, For;
    if Choose(s, s') {
      ForChoose(s, s', r, node);
    } else if AcquireGlobal(cfg, s, s') || AcquireNode(cfg, s, s') {
      ForAcquire(cfg, s, s', r, node);
    } else {
      ForDone(cfg, s, s', r, node);
    }
  }

  lemma ForChoose(s: State, s': State, r: Req, node: Bits)
    requires Choose(s, s') && r in s.seen && For(s, r, node) && s.next !in s.handlers
    requires forall n :: n in s.current ==> s.current[n] in s.handlers && s.handlers[s.current[n]].node == n
    ensures r in s'.seen && For(s', r, node)
  {
  }

  lemma ForAcquire(cfg: Config, s: State, s': State, r: Req, node: Bits)
    requires (AcquireGlobal(cfg, s, s') || AcquireNode(cfg, s, s')) && r in s.seen && For(s, r, node)
    ensures r in s'.seen && For(s', r, node)
  {
  }

  lemma ForDone(cfg: Config, s: State, s': State, r: Req, node: Bits)
    requires (GiveBack(s, s') || Enqueue(cfg, s, s')) && r in s.seen && For(s, r, node)
    ensures r in s'.seen && For(s', r, node)
  {
  }

  lemma ForEvict(s: State, s': State, r: Req, node: Bits)
    requires EvictStep(s, s') && r in s.seen && For(s, r, node)
    ensures r in s'.seen && For(s', r, node)
  {
  }

  lemma ForDrain(s: State, s': State, r: Req, node: Bits)
    requires DrainStep(s, s') && r in s.seen && For(s, r, node) && Placed(s)
    ensures r in s'.seen && For(s', r, node)
  {
  }

  lemma ForRun(s: State, s': State, g: Id, r: Req, node: Bits)
    requires RunStep(s, s', g) && r in s.seen && For(s, r, node) && Placed(s)
    ensures r in s'.seen && For(s', r, node)
  {
  }

  /** A request handed over for a node is only ever queued with, and sent by, a handler of that node. */
  lemma {:induction false} SentToItsNode(cfg: Config, run: seq<State>, i: nat, j: nat, r: Req, node: Bits)
    requires cfg.Valid() && IsRun(cfg, run) && i < j < |run| && BeginNotify(run[i], run[i + 1], r, node)
    ensures r in run[j].seen && For(run[j], r, node)
    ensures forall h :: h in run[j].handlers && (r in run[j].handlers[h].queue || run[j].handlers[h].run == Sending(r)) ==>
      run[j].handlers[h].node == node
  {
    hide *;
    AlwaysInv(cfg, run, j);
    if j == i + 1 {
      AlwaysInv(cfg, run, i);
      BegunFor(cfg, run[i], run[j], r, node);
    } else {
      AlwaysInv(cfg, run, j - 1);
      Consecutive(cfg, run, j);
      SentToItsNode(cfg, run, i, j - 1, r, node);
      ForKept(cfg, run[j - 1], run[j], r, node);
    }
    PlacesKept(cfg, run[j]);
    WithItsNode(run[j], r, node);
  }

  lemma WithItsNode(s: State, r: Req, node: Bits)
    requires Placed(s) && For(s, r, node)
    ensures forall h :: h in s.handlers && (r in s.handlers[h].queue || s.handlers[h].run == Sending(r)) ==> s.handlers[h].node == node
  {
    forall h | h in s.handlers && (r in s.handlers[h].queue || s.handlers[h].run == Sending(r)) ensures s.handlers[h].node == node {
      if r in s.handlers[h].queue {
        var x :| 0 <= x < |s.handlers[h].queue| && s.handlers[h].queue[x] == r;
        assert At(s, r, Queued(h));
      } else {
        assert At(s, r, InSend(h));
      }
    }
  }

  lemma BegunFor(cfg: Config, s: State, s': State, r: Req, node: Bits)
    requires Inv(cfg, s) && BeginNotify(s, s', r, node)
    ensures r in s'.seen && For(s', r, node)
  {
    assert ReqOk(s, r);
    hide HandlerOk, CurrentOk, LockOk;
  }

  // ---------- Refusing, evicting and closing ----------

  /** A request is refused only when as many requests hold a slot as may, of all or of its handler's. */
  lemma RefusedWhenFull(cfg: Config, run: seq<State>, i: nat)
    requires cfg.Valid() && IsRun(cfg, run) && 0 < i < |run|
    ensures var l, l' := run[i - 1].lock, run[i].lock;
      && (l.Chosen? && l'.Free? ==> |Holding(run[i - 1])| == cfg.capacity)
      && (l.Chosen? && l' != l && !l'.Free? ==> |Holding(run[i - 1])| < cfg.capacity && l' == HasGlobal(l.r, l.h))
      && (l.HasGlobal? && l'.GivesBack? ==> |NodeHeld(run[i - 1].place, l.h)| == cfg.nodeCapacity)
      && (l.HasGlobal? && l' != l && !l'.GivesBack? ==> |NodeHeld(run[i - 1].place, l.h)| < cfg.nodeCapacity && l' == HasBoth(l.r, l.h))
  {
    hide *;
    SlotsConserved(cfg, run, i - 1);
    Consecutive(cfg, run, i);
    StepKinds(cfg, run[i - 1], run[i]);
    Refuses(cfg, run[i - 1], run[i]);
  }

  lemma Refuses(cfg: Config, s: State, s': State)
    requires Steps(cfg, s, s')
    ensures s.lock.Chosen? && s'.lock != s.lock ==>
      if s'.lock.Free? then s.global >= cfg.capacity else s.global < cfg.capacity && s'.lock == HasGlobal(s.lock.r, s.lock.h)
    ensures s.lock.HasGlobal? && s'.lock != s.lock ==>
      && s.lock.h in s.handlers
      && if s'.lock.GivesBack? then s.handlers[s.lock.h].held >= cfg.nodeCapacity
         else s.handlers[s.lock.h].held < cfg.nodeCapacity && s'.lock == HasBoth(s.lock.r, s.lock.h)
  {
    if s.lock.Chosen? || s.lock.HasGlobal? {
      assert !EvictStep(s, s') && !DrainStep(s, s');
    }
    hide EvictStep, DrainStep;
  }

  /** A handler that asks to be evicted is, exactly when it is still its node's and no request holds a slot of it. */
  lemma EvictedWhenIdle(cfg: Config, run: seq<State>, i: nat)
    requires cfg.Valid() && IsRun(cfg, run) && 0 < i < |run| && run[i - 1].lock.Evicting? && run[i].lock != run[i - 1].lock
    ensures var s, h := run[i - 1], run[i - 1].lock.h;
      && h in s.handlers
      && (run[i].lock == Removing(h) <==>
            s.handlers[h].node in s.current && s.current[s.handlers[h].node] == h && |NodeHeld(s.place, h)| == 0)
      && (run[i].lock != Removing(h) ==> run[i].lock.Free? && h in run[i].handlers && run[i].handlers[h].run.Select?)
  {
    hide *;
    SlotsConserved(cfg, run, i - 1);
    Consecutive(cfg, run, i);
    StepKinds(cfg, run[i - 1], run[i]);
    Evicts(cfg, run[i - 1], run[i]);
  }

  lemma Evicts(cfg: Config, s: State, s': State)
    requires Steps(cfg, s, s') && s.lock.Evicting? && s'.lock != s.lock
    ensures var h := s.lock.h;
      && h in s.handlers
      && (s'.lock == Removing(h) <==> s.handlers[h].node in s.current && s.current[s.handlers[h].node] == h && s.handlers[h].held == 0)
      && (s'.lock != Removing(h) ==> s'.lock.Free? && h in s'.handlers && s'.handlers[h].run.Select?)
  {
    assert !NotifyStep(cfg, s, s') && !DrainStep(s, s');
    hide NotifyStep, DrainStep;
  }

  /** When a Close ends, every handler is stopped with nothing queued, and no node has one. */
  lemma CloseStopsAll(cfg: Config, run: seq<State>, i: nat)
    requires cfg.Valid() && IsRun(cfg, run) && 0 < i < |run| && InClose(run[i - 1].lock) && !InClose(run[i].lock)
    ensures run[i].lock.Free? && run[i].current == map[]
    ensures forall h :: h in run[i].handlers ==> run[i].handlers[h].stopped && run[i].handlers[h].queue == []
  {
    hide *;
    AlwaysInv(cfg, run, i);
    AlwaysOneLive(cfg, run, i - 1);
    Consecutive(cfg, run, i);
    StepKinds(cfg, run[i - 1], run[i]);
    EndsClose(cfg, run[i - 1], run[i]);
    forall h | h in run[i].handlers ensures run[i].handlers[h].queue == [] {
      NotClosing(run[i], h);
      ClosedIsEmpty(cfg, run[i], h);
    }
  }

  lemma NotClosing(s: State, h: Id)
    requires s.lock.Free?
    ensures !ClosingNow(s.lock, h)
  {
  }

  lemma EndsClose(cfg: Config, s: State, s': State)
    requires Steps(cfg, s, s') && OneLive(s) && InClose(s.lock) && !InClose(s'.lock)
    ensures s'.lock.Free? && s'.current == map[]
    ensures forall h :: h in s'.handlers ==> s'.handlers[h].stopped
  {
    assert !NotifyStep(cfg, s, s') && !DrainStep(s, s');
    hide NotifyStep, DrainStep;
  }
}
