/** What every interleaving keeps of the network behaviour's slots, queues and handlers. */
module NetworkProofs {
  import opened Keys
  import opened Sequences
  import opened Network

  // ---------- Counting places ----------

  function One(b: bool): nat {
    if b then 1 else 0
  }

  lemma Recount(place: map<Req, Place>, r: Req, p: Place, h: Id)
    ensures |place[r := p]| == |place| + One(r !in place)
    ensures |NodeHeld(place[r := p], h)| ==
      |NodeHeld(place, h)| + One(p.HoldsNode(h)) - One(r in place && place[r].HoldsNode(h))
  {
    assert place[r := p].Keys == place.Keys + {r};
    RecountNode(place, r, p, h);
    hide NodeHeld;
  }

  lemma RecountNode(place: map<Req, Place>, r: Req, p: Place, h: Id)
    ensures |NodeHeld(place[r := p], h)| ==
      |NodeHeld(place, h)| + One(p.HoldsNode(h)) - One(r in place && place[r].HoldsNode(h))
  {
    var was, next := NodeHeld(place, h), NodeHeld(place[r := p], h);
    assert forall q :: q in next <==> (q in was && q != r) || (q == r && p.HoldsNode(h));
    assert r in was <==> r in place && place[r].HoldsNode(h);
    hide NodeHeld;
    if p.HoldsNode(h) {
      assert next == was + {r};
    } else {
      assert next == was - {r};
    }
  }

  lemma Uncount(place: map<Req, Place>, r: Req, h: Id)
    requires r in place && !place[r].HoldsNode(h)
    ensures |place - {r}| == |place| - 1
    ensures NodeHeld(place - {r}, h) == NodeHeld(place, h)
  {
    assert (place - {r}).Keys == place.Keys - {r};
  }

  // ---------- A step touches one handler and at most one request ----------

  datatype Held = Nothing | Just(r: Req)

  /** Only handler h and request t differ between s and s', and neither before nor after is t with
      another handler. */
  ghost predicate Touches(s: State, s': State, h: Id, t: Held) {
    && s.next <= s'.next
    && (forall k :: k in s.handlers ==> k in s'.handlers)
    && (forall k :: k in s'.handlers && k != h ==> k in s.handlers && s'.handlers[k] == s.handlers[k])
    && (forall q {:trigger q in s'.place} :: Just(q) != t ==> (q in s'.place <==> q in s.place) && (q in s.place ==> s'.place[q] == s.place[q]))
    && (t.Just? && t.r in s.place ==> s.place[t.r].Entering? || s.place[t.r].h == h)
    && (t.Just? && t.r in s'.place ==> s'.place[t.r].Entering? || s'.place[t.r].h == h)
    && (forall q {:trigger q in s'.seen} :: q in s.seen ==> q in s'.seen)
    && (forall q {:trigger q in s'.accepted} :: Just(q) != t ==> (q in s'.accepted <==> q in s.accepted))
    && (forall q {:trigger q in s'.sent} :: Just(q) != t ==> (q in s'.sent <==> q in s.sent))
    && (forall q {:trigger q in s'.discarded} :: Just(q) != t ==> (q in s'.discarded <==> q in s.discarded))
  }

  /** The request that the lock holder has in its hands. */
  function LockReq(l: Lock): Held {
    if l.HasGlobal? || l.GivesBack? || l.HasBoth? || l.DrainFull? || l.DrainHalf? then Just(l.r) else Nothing
  }

  /** The lock moves without losing hold of another request than t or ending the closing of another handler than h. */
  ghost predicate LockTouches(l: Lock, l': Lock, h: Id, t: Held) {
    l' == l ||
    (&& (LockReq(l) == Nothing || LockReq(l) == t)
     && (forall k :: k != h ==> !ClosingNow(l, k)))
  }

  /** Requests other than t stay where they are at handler h. */
  ghost predicate HandlerTouches(s: State, s': State, h: Id, t: Held) {
    h in s.handlers ==>
      (&& h in s'.handlers
       && var (n, n') := (s.handlers[h], s'.handlers[h]);
         && (forall q {:trigger q in n'.queue} :: Just(q) != t ==> (q in n'.queue <==> q in n.queue))
         && (n.run.Sending? && Just(n.run.r) != t ==> n'.run == n.run)
         && (n.run.HalfReleased? && Just(n.run.r) != t ==> n'.run == n.run))
  }

  /** Every other handler stays as it should be. */
  lemma OtherHandler(cfg: Config, s: State, s': State, h: Id, t: Held, k: Id)
    requires Touches(s, s', h, t) && LockTouches(s.lock, s'.lock, h, t)
    requires k in s'.handlers && k != h && k in s.handlers && HandlerOk(cfg, s, k)
    ensures HandlerOk(cfg, s', k)
  {
    forall q ensures q in NodeHeld(s'.place, k) <==> q in NodeHeld(s.place, k) {
      assert q in s'.place || q !in s'.place;
    }
    assert NodeHeld(s'.place, k) == NodeHeld(s.place, k);
  }

  /** Every other request stays as it should be. */
  lemma OtherReq(s: State, s': State, h: Id, t: Held, q: Req)
    requires Touches(s, s', h, t) && LockTouches(s.lock, s'.lock, h, t) && HandlerTouches(s, s', h, t)
    requires Just(q) != t && ReqOk(s, q)
    ensures ReqOk(s', q)
  {
    assert (q in s'.place <==> q in s.place) && (q in s.accepted <==> q in s'.accepted) && (q in s'.sent <==> q in s.sent);
    assert (q in s'.discarded <==> q in s.discarded) && (q in s.seen ==> q in s'.seen);
    if q in s.place && (s.place[q].Queued? || s.place[q].InSend? || s.place[q].Sent?) && s.place[q].h != h {
      assert s'.handlers[s.place[q].h] == s.handlers[s.place[q].h];
    }
  }

  /** The handlers that can be looked up stay the same, and so does whether a Close is under way. */
  ghost predicate CurrentTouches(s: State, s': State, h: Id) {
    && s'.current == s.current && (InClose(s.lock) ==> InClose(s'.lock))
    && (h in s.handlers ==>
          (&& h in s'.handlers && s'.handlers[h].node == s.handlers[h].node
           && (s'.handlers[h].stopped ==> s.handlers[h].stopped || InClose(s'.lock))))
  }

  /** The shape of a step that writes at most one entry of each map and adds at most one request to each set. */
  ghost predicate Shaped(s: State, s': State, h: Id, t: Held) {
    && s.next <= s'.next
    && (s'.handlers == s.handlers || (h in s'.handlers && s'.handlers == s.handlers[h := s'.handlers[h]]))
    && (s'.place == s.place
        || (t.Just? && t.r in s'.place && s'.place == s.place[t.r := s'.place[t.r]])
        || (t.Just? && s'.place == s.place - {t.r}))
    && (t.Just? && t.r in s.place ==> s.place[t.r].Entering? || s.place[t.r].h == h)
    && (t.Just? && t.r in s'.place ==> s'.place[t.r].Entering? || s'.place[t.r].h == h)
    && s.seen <= s'.seen
    && (s'.accepted == s.accepted || (t.Just? && s'.accepted == s.accepted + {t.r}))
    && (s'.sent == s.sent || (t.Just? && s'.sent == s.sent + {t.r}))
    && (s'.discarded == s.discarded || (t.Just? && s'.discarded == s.discarded + {t.r}))
  }

  lemma ShapedTouches(s: State, s': State, h: Id, t: Held)
    requires Shaped(s, s', h, t)
    ensures Touches(s, s', h, t)
  {
  }

  /** A step keeps the invariant when it keeps what it touches as it should be. */
  lemma Kept(cfg: Config, s: State, s': State, h: Id, t: Held)
    requires Inv(cfg, s) && Shaped(s, s', h, t) && LockTouches(s.lock, s'.lock, h, t) && HandlerTouches(s, s', h, t)
    requires s'.global == |s'.place| <= cfg.capacity
    requires h in s'.handlers ==> HandlerOk(cfg, s', h)
    requires (t.Just? ==> ReqOk(s', t.r)) && LockOk(s')
    requires CurrentTouches(s, s', h) || forall n :: n in s'.current ==> CurrentOk(s', n)
    ensures Inv(cfg, s')
  {
    ShapedTouches(s, s', h, t);
    hide HandlerOk, ReqOk, LockOk, LockTouches, HandlerTouches, Shaped;
    forall k | k in s'.handlers
      ensures HandlerOk(cfg, s', k)
    {
      if k != h {
        OtherHandler(cfg, s, s', h, t, k);
      }
    }
    forall q
      ensures ReqOk(s', q)
    {
      assert ReqOk(s, q);
      if Just(q) != t {
        OtherReq(s, s', h, t, q);
      }
    }
    forall n | n in s'.current
      ensures CurrentOk(s', n)
    {
      if CurrentTouches(s, s', h) {
        assert CurrentOk(s, n);
        assert s.current[n] in s'.handlers;
      }
    }
    hide CurrentOk, Touches;
  }

  // ---------- Steps of the lock holder ----------

  lemma BeginNotifyKeepsInv(cfg: Config, s: State, s': State, r: Req, node: Bits)
    requires Inv(cfg, s) && BeginNotify(s, s', r, node)
    ensures Inv(cfg, s')
  {
    assert ReqOk(s, r);
    NextIsNew(cfg, s);
    Kept(cfg, s, s', s.next, Just(r));
  }

  lemma ChooseKeepsInv(cfg: Config, s: State, s': State)
    requires Inv(cfg, s) && Choose(s, s')
    ensures Inv(cfg, s')
  {
    var (r, node, h) := (s.lock.r, s.lock.node, s.next);
    NextIsNew(cfg, s);
    assert ReqOk(s, r);
    if node in s.current {
      assert CurrentOk(s, node);
      Kept(cfg, s, s', h, Just(r));
    } else {
      NothingThere(cfg, s, h);
      forall n | n in s'.current ensures CurrentOk(s', n) {
        assert n != node ==> CurrentOk(s, n);
      }
      Kept(cfg, s, s', h, Just(r));
    }
  }

  lemma NextIsNew(cfg: Config, s: State)
    requires Inv(cfg, s)
    ensures s.next !in s.handlers
  {
    assert s.next in s.handlers ==> HandlerOk(cfg, s, s.next);
  }

  /** No request is placed with a handler that does not exist. */
  lemma NothingThere(cfg: Config, s: State, h: Id)
    requires Inv(cfg, s) && h !in s.handlers && s.lock.Notifying?
    ensures NodeHeld(s.place, h) == {}
  {
    forall q ensures q !in NodeHeld(s.place, h) {
      assert ReqOk(s, q);
    }
  }

  lemma AcquireGlobalKeepsInv(cfg: Config, s: State, s': State)
    requires Inv(cfg, s) && AcquireGlobal(cfg, s, s')
    ensures Inv(cfg, s')
  {
    var r, h := s.lock.r, s.lock.h;
    assert HandlerOk(cfg, s, h) && ReqOk(s, r);
    Recount(s.place, r, Entering, h);
    Kept(cfg, s, s', h, Just(r));
  }

  lemma AcquireNodeKeepsInv(cfg: Config, s: State, s': State)
    requires Inv(cfg, s) && AcquireNode(cfg, s, s')
    ensures Inv(cfg, s')
  {
    var r, h := s.lock.r, s.lock.h;
    assert HandlerOk(cfg, s, h) && ReqOk(s, r);
    Recount(s.place, r, Handed(h), h);
    Kept(cfg, s, s', h, Just(r));
  }

  /** Returning the shared slot of a request that holds no other leaves the counts right. */
  lemma ForgetsOne(cfg: Config, s: State, s': State, h: Id, r: Req)
    requires Inv(cfg, s) && r in s.place && !s.place[r].HoldsNode(h) && ReqOk(s, r)
    requires s'.place == s.place - {r} && s'.global == Dec(s.global)
    ensures s.global > 0 && s'.global == |s'.place| <= cfg.capacity && NodeHeld(s'.place, h) == NodeHeld(s.place, h)
  {
    Uncount(s.place, r, h);
    hide NodeHeld;
  }

  /** The shared slot given back was taken. */
  lemma GiveBackKeepsInv(cfg: Config, s: State, s': State)
    requires Inv(cfg, s) && GiveBack(s, s')
    ensures Inv(cfg, s') && s.global > 0
  {
    var r, h := s.lock.r, s.next;
    NextIsNew(cfg, s);
    assert ReqOk(s, r);
    ForgetsOne(cfg, s, s', h, r);
    Kept(cfg, s, s', h, Just(r));
  }

  lemma EnqueueKeepsInv(cfg: Config, s: State, s': State)
    requires Inv(cfg, s) && Enqueue(cfg, s, s')
    ensures Inv(cfg, s')
  {
    var r, h := s.lock.r, s.lock.h;
    assert HandlerOk(cfg, s, h) && ReqOk(s, r);
    Recount(s.place, r, Queued(h), h);
    assert r !in s.handlers[h].queue;
    Longer(s.handlers[h].queue, r);
    Kept(cfg, s, s', h, Just(r));
  }

  lemma Longer(q: seq<Req>, r: Req)
    requires Distinct(q) && r !in q
    ensures Distinct(q + [r]) && forall x :: x in q + [r] <==> x in q || x == r
  {
  }

  lemma BeginEvictKeepsInv(cfg: Config, s: State, s': State, h: Id)
    requires Inv(cfg, s) && BeginEvict(s, s', h)
    ensures Inv(cfg, s')
  {
    assert HandlerOk(cfg, s, h);
    Kept(cfg, s, s', h, Nothing);
  }

  lemma CheckEvictKeepsInv(cfg: Config, s: State, s': State)
    requires Inv(cfg, s) && CheckEvict(s, s')
    ensures Inv(cfg, s')
  {
    var h := s.lock.h;
    assert HandlerOk(cfg, s, h);
    assert s.handlers[h].node in s.current ==> CurrentOk(s, s.handlers[h].node);
    Kept(cfg, s, s', h, Nothing);
  }

  lemma {:induction false} QueueWithin(q: seq<Req>, held: set<Req>)
    requires Distinct(q) && forall r :: r in q ==> r in held
    ensures |q| <= |held|
  {
    if |q| > 0 {
      var r := q[|q| - 1];
      QueueWithin(q[..|q| - 1], held - {r});
    }
  }

  /** A handler that holds no slot has nothing queued, so an eviction discards nothing. */
  lemma NothingQueued(cfg: Config, s: State, h: Id)
    requires h in s.handlers && HandlerOk(cfg, s, h) && s.handlers[h].held == 0
    ensures s.handlers[h].queue == []
  {
    QueueWithin(s.handlers[h].queue, NodeHeld(s.place, h));
  }

  lemma RemoveKeepsInv(cfg: Config, s: State, s': State)
    requires Inv(cfg, s) && Remove(s, s')
    ensures Inv(cfg, s')
  {
    hide Inv, HandlerOk, ReqOk, LockOk, NodeHeld, CurrentOk;
    var h := s.lock.h;
    RemovingFacts(cfg, s);
    NothingQueued(cfg, s, h);
    RemoveOk(cfg, s, s');
    Kept(cfg, s, s', h, Nothing);
  }

  lemma RemovingFacts(cfg: Config, s: State)
    requires Inv(cfg, s) && s.lock.Removing? && s.lock.h in s.handlers
    ensures HandlerOk(cfg, s, s.lock.h) && s.handlers[s.lock.h].held == 0 && s.global == |s.place| <= cfg.capacity
  {
    hide HandlerOk, ReqOk, CurrentOk;
  }

  lemma RemoveOk(cfg: Config, s: State, s': State)
    requires Inv(cfg, s) && Remove(s, s') && HandlerOk(cfg, s, s.lock.h) && s.handlers[s.lock.h].queue == []
    ensures HandlerOk(cfg, s', s.lock.h) && LockOk(s')
    ensures forall n :: n in s'.current ==> CurrentOk(s', n)
  {
    hide NodeHeld, Distinct;
    forall n | n in s'.current ensures CurrentOk(s', n) {
      assert CurrentOk(s, n) && s.current[n] != s.lock.h;
    }
  }

  lemma BeginCloseKeepsInv(cfg: Config, s: State, s': State)
    requires Inv(cfg, s) && BeginClose(s, s')
    ensures Inv(cfg, s')
  {
    NextIsNew(cfg, s);
    forall h | h in s.current.Values ensures h in s.handlers {
      var n :| n in s.current && s.current[n] == h;
      assert CurrentOk(s, n);
    }
    Kept(cfg, s, s', s.next, Nothing);
  }

  lemma CloseNextKeepsInv(cfg: Config, s: State, s': State, h: Id)
    requires Inv(cfg, s) && CloseNext(s, s', h)
    ensures Inv(cfg, s')
  {
    assert HandlerOk(cfg, s, h);
    Kept(cfg, s, s', h, Nothing);
  }

  lemma EndCloseKeepsInv(cfg: Config, s: State, s': State)
    requires Inv(cfg, s) && EndClose(s, s')
    ensures Inv(cfg, s')
  {
    NextIsNew(cfg, s);
    Kept(cfg, s, s', s.next, Nothing);
  }

  lemma DrainKeepsInv(cfg: Config, s: State, s': State)
    requires Inv(cfg, s) && Drain(s, s')
    ensures Inv(cfg, s')
  {
    if |s.handlers[s.lock.h].queue| > 0 {
      DrainOneKeepsInv(cfg, s, s');
    } else {
      DrainedKeepsInv(cfg, s, s');
    }
  }

  lemma DrainOneKeepsInv(cfg: Config, s: State, s': State)
    requires Inv(cfg, s) && Drain(s, s') && |s.handlers[s.lock.h].queue| > 0
    ensures Inv(cfg, s')
  {
    var h := s.lock.h;
    var q := s.handlers[h].queue;
    assert HandlerOk(cfg, s, h) && ReqOk(s, q[0]);
    Tail(q);
    Recount(s.place, q[0], InDrain(h), h);
    Kept(cfg, s, s', h, Just(q[0]));
  }

  lemma DrainedKeepsInv(cfg: Config, s: State, s': State)
    requires Inv(cfg, s) && Drain(s, s') && |s.handlers[s.lock.h].queue| == 0
    ensures Inv(cfg, s')
  {
    var h := s.lock.h;
    assert HandlerOk(cfg, s, h);
    Kept(cfg, s, s', h, Nothing);
  }

  lemma Tail(q: seq<Req>)
    requires |q| > 0 && Distinct(q)
    ensures q[0] in q && Distinct(q[1..]) && forall x :: x in q[1..] <==> x in q && x != q[0]
  {
    assert forall x :: x in q[1..] ==> x in q;
  }

  /** The handler's slot returned was taken. */
  lemma DrainNodeKeepsInv(cfg: Config, s: State, s': State)
    requires Inv(cfg, s) && DrainNode(s, s')
    ensures Inv(cfg, s') && s.handlers[s.lock.h].held > 0
  {
    hide Inv, HandlerOk, ReqOk, LockOk, NodeHeld;
    var h, r := s.lock.h, s.lock.r;
    DrainFullFacts(cfg, s);
    Recount(s.place, r, Drained(h), h);
    DrainNodeOk(cfg, s, s');
    Kept(cfg, s, s', h, Just(r));
  }

  lemma DrainFullFacts(cfg: Config, s: State)
    requires Inv(cfg, s) && s.lock.DrainFull?
    ensures At(s, s.lock.r, InDrain(s.lock.h)) && ReqOk(s, s.lock.r) && LockOk(s)
    ensures s.lock.h in s.handlers && HandlerOk(cfg, s, s.lock.h) && s.global == |s.place| <= cfg.capacity
  {
    hide HandlerOk;
  }

  lemma DrainNodeOk(cfg: Config, s: State, s': State)
    requires DrainNode(s, s') && LockOk(s) && ReqOk(s, s.lock.r) && HandlerOk(cfg, s, s.lock.h)
    requires At(s, s.lock.r, InDrain(s.lock.h)) && |NodeHeld(s'.place, s.lock.h)| == |NodeHeld(s.place, s.lock.h)| - 1
    ensures ReqOk(s', s.lock.r) && LockOk(s') && HandlerOk(cfg, s', s.lock.h) && s.handlers[s.lock.h].held > 0
  {
    hide NodeHeld, Distinct;
  }

  lemma DrainGlobalKeepsInv(cfg: Config, s: State, s': State)
    requires Inv(cfg, s) && DrainGlobal(s, s')
    ensures Inv(cfg, s') && s.global > 0
  {
    hide Inv, HandlerOk, ReqOk, LockOk, NodeHeld;
    var h, r := s.lock.h, s.lock.r;
    DrainHalfFacts(cfg, s);
    ForgetsOne(cfg, s, s', h, r);
    DrainGlobalOk(cfg, s, s');
    Kept(cfg, s, s', h, Just(r));
  }

  lemma DrainHalfFacts(cfg: Config, s: State)
    requires Inv(cfg, s) && s.lock.DrainHalf?
    ensures At(s, s.lock.r, Drained(s.lock.h)) && ReqOk(s, s.lock.r) && LockOk(s)
    ensures s.lock.h in s.handlers && HandlerOk(cfg, s, s.lock.h)
  {
    hide HandlerOk;
  }

  lemma DrainGlobalOk(cfg: Config, s: State, s': State)
    requires DrainGlobal(s, s') && LockOk(s) && ReqOk(s, s.lock.r)
    requires s.lock.h in s.handlers && HandlerOk(cfg, s, s.lock.h)
    requires NodeHeld(s'.place, s.lock.h) == NodeHeld(s.place, s.lock.h)
    ensures ReqOk(s', s.lock.r) && LockOk(s') && HandlerOk(cfg, s', s.lock.h)
  {
    hide NodeHeld, Distinct;
  }

  // ---------- Steps of a handler's goroutine ----------

  lemma TakeKeepsInv(cfg: Config, s: State, s': State, h: Id)
    requires Inv(cfg, s) && Take(s, s', h)
    ensures Inv(cfg, s')
  {
    var q := s.handlers[h].queue;
    var r := q[0];
    assert HandlerOk(cfg, s, h) && ReqOk(s, r);
    Tail(q);
    Recount(s.place, r, InSend(h), h);
    Kept(cfg, s, s', h, Just(r));
  }

  lemma FinishSendKeepsInv(cfg: Config, s: State, s': State, h: Id)
    requires Inv(cfg, s) && FinishSend(s, s', h)
    ensures Inv(cfg, s') && s.handlers[h].held > 0
  {
    var r := s.handlers[h].run.r;
    assert HandlerOk(cfg, s, h) && ReqOk(s, r);
    Recount(s.place, r, Sent(h), h);
    Kept(cfg, s, s', h, Just(r));
  }

  lemma FinishReleaseKeepsInv(cfg: Config, s: State, s': State, h: Id)
    requires Inv(cfg, s) && FinishRelease(s, s', h)
    ensures Inv(cfg, s') && s.global > 0
  {
    hide Inv, HandlerOk, ReqOk, LockOk, NodeHeld;
    var r := s.handlers[h].run.r;
    HalfReleasedFacts(cfg, s, h);
    ForgetsOne(cfg, s, s', h, r);
    FinishReleaseOk(cfg, s, s', h);
    Kept(cfg, s, s', h, Just(r));
  }

  lemma HalfReleasedFacts(cfg: Config, s: State, h: Id)
    requires Inv(cfg, s) && h in s.handlers && s.handlers[h].run.HalfReleased?
    ensures var r := s.handlers[h].run.r; r in s.place && !s.place[r].HoldsNode(h) && !s.place[r].Entering? && s.place[r].h == h && ReqOk(s, r)
    ensures LockOk(s) && HandlerOk(cfg, s, h)
  {
    hide NodeHeld, Distinct;
    assert HandlerOk(cfg, s, h) && ReqOk(s, s.handlers[h].run.r);
  }

  lemma FinishReleaseOk(cfg: Config, s: State, s': State, h: Id)
    requires FinishRelease(s, s', h) && LockOk(s) && ReqOk(s, s.handlers[h].run.r) && HandlerOk(cfg, s, h)
    requires NodeHeld(s'.place, h) == NodeHeld(s.place, h)
    ensures ReqOk(s', s.handlers[h].run.r) && LockOk(s') && HandlerOk(cfg, s', h)
  {
    hide NodeHeld, Distinct;
  }

  lemma IdleFiresKeepsInv(cfg: Config, s: State, s': State, h: Id)
    requires Inv(cfg, s) && IdleFires(s, s', h)
    ensures Inv(cfg, s')
  {
    assert HandlerOk(cfg, s, h);
    Kept(cfg, s, s', h, Nothing);
  }

  lemma SeesStopKeepsInv(cfg: Config, s: State, s': State, h: Id)
    requires Inv(cfg, s) && SeesStop(s, s', h)
    ensures Inv(cfg, s')
  {
    assert HandlerOk(cfg, s, h);
    Kept(cfg, s, s', h, Nothing);
  }

  // ---------- Runs ----------

  lemma RunStepKeepsInv(cfg: Config, s: State, s': State, h: Id)
    requires Inv(cfg, s) && RunStep(s, s', h)
    ensures Inv(cfg, s')
  {
    hide Inv, Take, FinishSend, FinishRelease, IdleFires, SeesStop;
    if Take(s, s', h) {
      TakeKeepsInv(cfg, s, s', h);
    } else if FinishSend(s, s', h) {
      FinishSendKeepsInv(cfg, s, s', h);
    } else if FinishRelease(s, s', h) {
      FinishReleaseKeepsInv(cfg, s, s', h);
    } else if IdleFires(s, s', h) {
      IdleFiresKeepsInv(cfg, s, s', h);
    } else {
      SeesStopKeepsInv(cfg, s, s', h);
    }
  }

  lemma LockStepKeepsInv(cfg: Config, s: State, s': State)
    requires Inv(cfg, s) && LockStep(cfg, s, s')
    ensures Inv(cfg, s')
  {
    hide Inv, Choose, AcquireGlobal, AcquireNode, GiveBack, Enqueue, CheckEvict, Remove, CloseNext, EndClose, Drain, DrainNode, DrainGlobal;
    if Choose(s, s') {
      ChooseKeepsInv(cfg, s, s');
    } else if AcquireGlobal(cfg, s, s') {
      AcquireGlobalKeepsInv(cfg, s, s');
    } else if AcquireNode(cfg, s, s') {
      AcquireNodeKeepsInv(cfg, s, s');
    } else if GiveBack(s, s') {
      GiveBackKeepsInv(cfg, s, s');
    } else if Enqueue(cfg, s, s') {
      EnqueueKeepsInv(cfg, s, s');
    } else if CheckEvict(s, s') {
      CheckEvictKeepsInv(cfg, s, s');
    } else if Remove(s, s') {
      RemoveKeepsInv(cfg, s, s');
    } else if EndClose(s, s') {
      EndCloseKeepsInv(cfg, s, s');
    } else if Drain(s, s') {
      DrainKeepsInv(cfg, s, s');
    } else if DrainNode(s, s') {
      DrainNodeKeepsInv(cfg, s, s');
    } else if DrainGlobal(s, s') {
      DrainGlobalKeepsInv(cfg, s, s');
    } else {
      var h :| CloseNext(s, s', h);
      CloseNextKeepsInv(cfg, s, s', h);
    }
  }

  lemma StepKeepsInv(cfg: Config, s: State, s': State)
    requires Inv(cfg, s) && Step(cfg, s, s')
    ensures Inv(cfg, s')
  {
    hide Inv, BeginNotify, BeginEvict, BeginClose, LockStep, RunStep;
    if LockStep(cfg, s, s') {
      LockStepKeepsInv(cfg, s, s');
    } else if BeginClose(s, s') {
      BeginCloseKeepsInv(cfg, s, s');
    } else if r, node :| BeginNotify(s, s', r, node) {
      BeginNotifyKeepsInv(cfg, s, s', r, node);
    } else if h :| BeginEvict(s, s', h) {
      BeginEvictKeepsInv(cfg, s, s', h);
    } else {
      var h :| RunStep(s, s', h);
      RunStepKeepsInv(cfg, s, s', h);
    }
  }

  ghost predicate IsRun(cfg: Config, run: seq<State>) {
    |run| > 0 && run[0] == Initial() && forall i :: 0 < i < |run| ==> Step(cfg, run[i - 1], run[i])
  }

  lemma {:induction false} AlwaysInv(cfg: Config, run: seq<State>, i: nat)
    requires cfg.Valid() && IsRun(cfg, run) && i < |run|
    ensures Inv(cfg, run[i])
  {
    hide Step;
    if i > 0 {
      AlwaysInv(cfg, run, i - 1);
      hide Inv;
      StepKeepsInv(cfg, run[i - 1], run[i]);
    }
  }

  /** The requests that hold a shared slot, wherever they are. */
  function Holding(s: State): set<Req> {
    s.place.Keys
  }

  /** In every state of every run: the shared slots taken are those of the requests that hold one, and
      never more than there are; likewise for each handler; and a request that was accepted and neither
      sent nor discarded holds a shared slot, and one of a handler's until that is returned. */
  lemma SlotsConserved(cfg: Config, run: seq<State>, i: nat)
    requires cfg.Valid() && IsRun(cfg, run) && i < |run|
    ensures var s := run[i];
      && s.global == |Holding(s)| <= cfg.capacity
      && (forall h :: h in s.handlers ==> s.handlers[h].held == |NodeHeld(s.place, h)| <= cfg.nodeCapacity)
      && (forall r :: r in s.accepted && r !in s.sent && r !in s.discarded ==>
            r in Holding(s) && s.place[r].Accepted() && (s.place[r].Sent? || s.place[r].Drained? || r in NodeHeld(s.place, s.place[r].h)))
  {
    AlwaysInv(cfg, run, i);
    var s := run[i];
    forall h | h in s.handlers
      ensures s.handlers[h].held == |NodeHeld(s.place, h)| <= cfg.nodeCapacity
    {
      assert HandlerOk(cfg, s, h);
    }
    forall r | r in s.accepted && r !in s.sent && r !in s.discarded
      ensures r in Holding(s) && s.place[r].Accepted() && (s.place[r].Sent? || s.place[r].Drained? || r in NodeHeld(s.place, s.place[r].h))
    {
      assert ReqOk(s, r);
    }
  }

  /** No slot leaks: when the lock is free and every handler has nothing queued and nothing in hand, no
      slot is taken, and every request ever accepted has been sent or discarded. */
  lemma NoSlotLeaks(cfg: Config, run: seq<State>, i: nat)
    requires cfg.Valid() && IsRun(cfg, run) && i < |run| && run[i].lock.Free?
    requires forall h :: h in run[i].handlers ==>
      run[i].handlers[h].queue == [] && !run[i].handlers[h].run.Sending? && !run[i].handlers[h].run.HalfReleased?
    ensures run[i].global == 0 && forall h :: h in run[i].handlers ==> run[i].handlers[h].held == 0
    ensures run[i].accepted == run[i].sent + run[i].discarded
  {
    AlwaysInv(cfg, run, i);
    var s := run[i];
    forall r ensures r !in s.place && (r in s.accepted <==> r in s.sent + s.discarded) {
      assert ReqOk(s, r);
    }
    assert s.place.Keys == {};
    forall h | h in s.handlers ensures s.handlers[h].held == 0 {
      assert HandlerOk(cfg, s, h) && NodeHeld(s.place, h) == {};
    }
  }

  /** The send that hands a request over never blocks. */
  lemma SendNeverBlocks(cfg: Config, run: seq<State>, i: nat)
    requires cfg.Valid() && IsRun(cfg, run) && i < |run| && run[i].lock.HasBoth?
    ensures run[i].lock.h in run[i].handlers && |run[i].handlers[run[i].lock.h].queue| < cfg.nodeCapacity
  {
    AlwaysInv(cfg, run, i);
    RoomInQueue(cfg, run[i]);
  }

  lemma RoomInQueue(cfg: Config, s: State)
    requires Inv(cfg, s) && s.lock.HasBoth?
    ensures s.lock.h in s.handlers && |s.handlers[s.lock.h].queue| < cfg.nodeCapacity
  {
    var h, r := s.lock.h, s.lock.r;
    assert HandlerOk(cfg, s, h);
    var q := s.handlers[h].queue;
    assert r !in q;
    Longer(q, r);
    assert r in NodeHeld(s.place, h);
    QueueWithin(q + [r], NodeHeld(s.place, h));
  }

  /** Only a Close discards: while a handler is being evicted nothing is queued with it and none of its
      slots is taken, so a step that discards a request happens in a Close. */
  lemma EvictionDiscardsNothing(cfg: Config, run: seq<State>, i: nat)
    requires cfg.Valid() && IsRun(cfg, run) && 0 < i < |run|
    ensures run[i].discarded != run[i - 1].discarded ==> InClose(run[i - 1].lock)
    ensures var s := run[i - 1];
      s.lock.Draining? && s.lock.after.ToEvict? ==>
        s.lock.h in s.handlers && s.handlers[s.lock.h].queue == [] && s.handlers[s.lock.h].run.AsksEviction?
  {
    hide Inv, IsRun, Step;
    AlwaysInv(cfg, run, i - 1);
    Consecutive(cfg, run, i);
    OnlyDrainDiscards(cfg, run[i - 1], run[i]);
    DrainsAsMeant(cfg, run[i - 1]);
  }

  lemma DrainsAsMeant(cfg: Config, s: State)
    requires Inv(cfg, s)
    ensures s.lock.DrainHalf? ==> InClose(s.lock)
    ensures s.lock.Draining? && s.lock.after.ToEvict? ==>
      s.lock.h in s.handlers && s.handlers[s.lock.h].queue == [] && s.handlers[s.lock.h].run.AsksEviction?
  {
    hide HandlerOk, ReqOk, CurrentOk;
  }

  lemma OnlyDrainDiscards(cfg: Config, s: State, s': State)
    requires Step(cfg, s, s')
    ensures s'.discarded != s.discarded ==> s.lock.DrainHalf?
  {
  }

  /** Once closed, a handler stays closed, and nothing is ever left or put in its queue. */
  lemma {:induction false} ClosedStaysEmpty(cfg: Config, run: seq<State>, i: nat, j: nat, h: Id)
    requires cfg.Valid() && IsRun(cfg, run) && i <= j < |run|
    requires h in run[i].handlers && run[i].handlers[h].stopped && !ClosingNow(run[i].lock, h)
    ensures h in run[j].handlers && run[j].handlers[h].stopped && run[j].handlers[h].queue == []
    ensures !ClosingNow(run[j].lock, h)
  {
    hide *;
    AlwaysInv(cfg, run, j);
    if i < j {
      AlwaysInv(cfg, run, j - 1);
      Consecutive(cfg, run, j);
      ClosedStaysEmpty(cfg, run, i, j - 1, h);
      StoppedStays(cfg, run[j - 1], run[j], h);
    }
    ClosedIsEmpty(cfg, run[j], h);
  }

  lemma Consecutive(cfg: Config, run: seq<State>, j: nat)
    requires IsRun(cfg, run) && 0 < j < |run|
    ensures Step(cfg, run[j - 1], run[j])
  {
    hide Step;
  }

  lemma ClosedIsEmpty(cfg: Config, s: State, h: Id)
    requires Inv(cfg, s) && h in s.handlers && s.handlers[h].stopped && !ClosingNow(s.lock, h)
    ensures s.handlers[h].queue == []
  {
    assert HandlerOk(cfg, s, h);
  }

  lemma StoppedStays(cfg: Config, s: State, s': State, h: Id)
    requires Inv(cfg, s) && Step(cfg, s, s') && h in s.handlers && s.handlers[h].stopped && !ClosingNow(s.lock, h)
    ensures h in s'.handlers && s'.handlers[h].stopped && !ClosingNow(s'.lock, h)
  {
    NextIsNew(cfg, s);
    assert s.lock.Removing? ==> Live(s, s.lock.h);
    hide Inv, LockStep, RunStep;
    if LockStep(cfg, s, s') {
      StoppedStaysLock(cfg, s, s', h);
    } else if g :| RunStep(s, s', g) {
      StoppedStaysRun(s, s', g, h);
    }
  }

  lemma StoppedStaysLock(cfg: Config, s: State, s': State, h: Id)
    requires LockStep(cfg, s, s') && h in s.handlers && s.handlers[h].stopped && !ClosingNow(s.lock, h)
    requires s.next !in s.handlers && (s.lock.Removing? ==> Live(s, s.lock.h))
    ensures h in s'.handlers && s'.handlers[h].stopped && !ClosingNow(s'.lock, h)
  {
    if Choose(s, s') || AcquireGlobal(cfg, s, s') || AcquireNode(cfg, s, s') || GiveBack(s, s') || Enqueue(cfg, s, s') {
      StoppedStaysNotify(cfg, s, s', h);
    } else {
      StoppedStaysEvict(cfg, s, s', h);
    }
    hide *;
  }

  lemma StoppedStaysNotify(cfg: Config, s: State, s': State, h: Id)
    requires Choose(s, s') || AcquireGlobal(cfg, s, s') || AcquireNode(cfg, s, s') || GiveBack(s, s') || Enqueue(cfg, s, s')
    requires h in s.handlers && s.handlers[h].stopped && !ClosingNow(s.lock, h) && s.next !in s.handlers
    ensures h in s'.handlers && s'.handlers[h].stopped && !ClosingNow(s'.lock, h)
  {
  }

  lemma StoppedStaysEvict(cfg: Config, s: State, s': State, h: Id)
    requires LockStep(cfg, s, s') && h in s.handlers && s.handlers[h].stopped && !ClosingNow(s.lock, h)
    requires !Choose(s, s') && !AcquireGlobal(cfg, s, s') && !AcquireNode(cfg, s, s') && !GiveBack(s, s') && !Enqueue(cfg, s, s')
    requires s.lock.Removing? ==> Live(s, s.lock.h)
    ensures h in s'.handlers && s'.handlers[h].stopped && !ClosingNow(s'.lock, h)
  {
    hide Choose, AcquireGlobal, AcquireNode, GiveBack, Enqueue;
  }

  lemma StoppedStaysRun(s: State, s': State, g: Id, h: Id)
    requires RunStep(s, s', g) && h in s.handlers && s.handlers[h].stopped && !ClosingNow(s.lock, h)
    ensures h in s'.handlers && s'.handlers[h].stopped && !ClosingNow(s'.lock, h)
  {
  }

  // ---------- The lock is never kept waiting ----------

  /** How many steps of its own a Notify still needs. */
  function NotifyLeft(l: Lock): nat {
    match l
    case Notifying(_, _) => 4
    case Chosen(_, _) => 3
    case HasGlobal(_, _) => 2
    case HasBoth(_, _) => 1
    case GivesBack(_) => 1
    case _ => 0
  }

  /** A Notify lets go of the lock after at most four steps of its own, none of which another goroutine
      adds to: no other step changes what the lock holder is about to do. */
  lemma NotifyIsShort(cfg: Config, s: State, s': State)
    requires Step(cfg, s, s') && NotifyLeft(s.lock) > 0
    ensures s'.lock == s.lock || NotifyLeft(s'.lock) < NotifyLeft(s.lock)
    ensures NotifyLeft(s'.lock) == 0 ==> s'.lock.Free?
    ensures LockStep(cfg, s, s') ==> s'.lock != s.lock
  {
  }

  /** Whoever holds the lock can always take its next step, whatever the other goroutines have done. */
  lemma LockHolderCanMove(cfg: Config, s: State) returns (s': State)
    requires Inv(cfg, s) && !s.lock.Free?
    ensures LockStep(cfg, s, s')
  {
    if NotifyLeft(s.lock) > 0 {
      s' := NextOfNotify(cfg, s);
    } else {
      s' := NextOfClosing(cfg, s);
    }
  }

  lemma NextOfNotify(cfg: Config, s: State) returns (s': State)
    requires Inv(cfg, s) && NotifyLeft(s.lock) > 0
    ensures LockStep(cfg, s, s')
  {
    assert LockOk(s);
    match s.lock {
      case Notifying(r, node) =>
        s' := if node in s.current then s.(lock := Chosen(r, s.current[node]))
              else s.(lock := Chosen(r, s.next), next := s.next + 1, current := s.current[node := s.next],
                      handlers := s.handlers[s.next := Handler(node, 0, [], false, Select)]);
        assert Choose(s, s');
      case Chosen(r, h) =>
        s' := if s.global < cfg.capacity
              then s.(global := s.global + 1, place := s.place[r := Entering], lock := HasGlobal(r, h))
              else s.(lock := Free);
        assert AcquireGlobal(cfg, s, s');
      case HasGlobal(r, h) =>
        s' := if s.handlers[h].held < cfg.nodeCapacity
              then s.(handlers := s.handlers[h := s.handlers[h].(held := s.handlers[h].held + 1)],
                      place := s.place[r := Handed(h)], lock := HasBoth(r, h))
              else s.(lock := GivesBack(r));
        assert AcquireNode(cfg, s, s');
      case GivesBack(r) =>
        s' := Forgotten(s, r).(lock := Free);
        assert GiveBack(s, s');
      case HasBoth(r, h) =>
        RoomInQueue(cfg, s);
        s' := s.(handlers := s.handlers[h := s.handlers[h].(queue := s.handlers[h].queue + [r])],
                 place := s.place[r := Queued(h)], lock := Free, accepted := s.accepted + {r});
        assert Enqueue(cfg, s, s');
    }
    hide *;
  }

  lemma NextOfClosing(cfg: Config, s: State) returns (s': State)
    requires Inv(cfg, s) && NotifyLeft(s.lock) == 0 && !s.lock.Free?
    ensures LockStep(cfg, s, s')
  {
    assert LockOk(s);
    match s.lock {
      case Evicting(h) =>
        var n := s.handlers[h];
        s' := if (n.node in s.current && s.current[n.node] == h) && n.held == 0 then s.(lock := Removing(h))
              else s.(lock := Free, handlers := s.handlers[h := n.(run := Select)]);
        assert CheckEvict(s, s');
      case Removing(h) =>
        s' := s.(current := s.current - {s.handlers[h].node}, lock := Draining(h, ToEvict),
                 handlers := s.handlers[h := s.handlers[h].(stopped := true)]);
        assert Remove(s, s');
      case Closing(rest) =>
        if rest == {} {
          s' := s.(lock := Free, current := map[]);
          assert EndClose(s, s');
        } else {
          var h :| h in rest;
          s' := if s.handlers[h].stopped then s.(lock := Closing(rest - {h}))
                else s.(lock := Draining(h, ToClose(rest - {h})), handlers := s.handlers[h := s.handlers[h].(stopped := true)]);
          assert CloseNext(s, s', h);
        }
      case Draining(h, after) =>
        var n := s.handlers[h];
        s' := if |n.queue| > 0
              then s.(handlers := s.handlers[h := n.(queue := n.queue[1..])],
                      place := s.place[n.queue[0] := InDrain(h)], lock := DrainFull(h, n.queue[0], after))
              else if after.ToEvict? then s.(lock := Free, handlers := s.handlers[h := n.(run := Exited)])
              else s.(lock := Closing(after.rest));
        assert Drain(s, s');
      case DrainFull(h, r, after) =>
        s' := s.(handlers := s.handlers[h := s.handlers[h].(held := Dec(s.handlers[h].held))],
                 place := s.place[r := Drained(h)], lock := DrainHalf(h, r, after));
        assert DrainNode(s, s');
      case DrainHalf(h, r, after) =>
        s' := Forgotten(s, r).(lock := Draining(h, after), discarded := s.discarded + {r});
        assert DrainGlobal(s, s');
    }
    hide *;
  }
}
