/** The probe as the program runs it: a map of entries, an indexed heap of those pending and a list of
    those being checked, proved against the specification in `ProbeSpec`. */
module Probe {
  import opened Keys
  import opened Clock
  import opened Options
  import opened HeapOrder
  import opened Heap
  import opened ProbeSpec

  class NodeValueList {
    var nodes: map<Bits, Entry<NodeValue>>
    const pending: Heap<NodeValue>
    var ongoing: seq<Bits>

    ghost function Repr(): set<object>
      reads this
    {
      {this, pending} + nodes.Values
    }

    /** The heap holds only entries of the map, each at its recorded place, and an entry outside the
        heap says so. */
    ghost predicate Valid()
      reads this, pending, pending.items, nodes.Values
    {
      && pending.less == NodeLess && pending.Valid()
      && (forall k :: k in nodes ==> nodes[k].rank.key == k && (nodes[k] in pending.Entries() || nodes[k].index == -1))
      && (forall e :: e in pending.Entries() ==> e.rank.key in nodes && nodes[e.rank.key] == e)
    }

    /** The list as a value, beside a routing table. */
    ghost function Contents(rt: set<Bits>): State
      reads this, pending, nodes.Values
    {
      State(map k | k in nodes :: nodes[k].rank, (set k | k in nodes && nodes[k] in pending.Entries()), ongoing, rt)
    }

    constructor ()
      ensures Valid() && fresh(Repr())
      ensures Contents({}) == State(map[], {}, [], {})
    {
      NodeLessOrders();
      pending := new Heap<NodeValue>(NodeLess);
      nodes := map[];
      ongoing := [];
    }

    /** Adds a node value, or replaces the one held for its node, and clears any check under way. */
    method Put(v: NodeValue, ghost rt: set<Bits>)
      requires Valid()
      modifies Repr()
      ensures Valid() && fresh(Repr() - old(Repr()))
      ensures Contents(rt) == ProbeSpec.Put(old(Contents(rt)), v)
    {
      hide StrictWeakOrder, Ordered, OrderedAround, Heap.Valid, Heap.Ranks, Heap.Indexed, Heap.Entries;
      Store(v, rt);
      RemoveFromOngoing(v.key);
    }

    method Store(v: NodeValue, ghost rt: set<Bits>)
      requires Valid()
      modifies Repr()
      ensures Valid() && fresh(Repr() - old(Repr())) && ongoing == old(ongoing)
      ensures var s := old(Contents(rt));
        Contents(rt) == s.(nodes := s.nodes[v.key := v], pending := s.pending + {v.key})
    {
      if v.key in nodes {
        InHeapByIndex(v.key);
      }
      assert v.key in nodes && nodes[v.key].index != -1 ==> nodes[v.key].index >= 0;
      hide Valid, Contents;
      if v.key !in nodes {
        Insert(v, rt);
      } else if nodes[v.key].index == -1 {
        Requeue(v, rt);
      } else {
        Reorder(v, rt);
      }
    }

    /** Comparing contents node by node. */
    lemma KeptBut(s: State, k: Bits, rt: set<Bits>)
      requires k in nodes && nodes.Keys == s.nodes.Keys + {k} && s.pending <= s.nodes.Keys
      requires forall x :: x in s.nodes && x != k ==> nodes[x].rank == s.nodes[x] && (nodes[x] in pending.Entries() <==> x in s.pending)
      requires nodes[k] in pending.Entries()
      ensures Contents(rt) == State(s.nodes[k := nodes[k].rank], s.pending + {k}, ongoing, rt)
    {
    }

    method Insert(v: NodeValue, ghost rt: set<Bits>)
      requires Valid() && v.key !in nodes
      modifies Repr()
      ensures Valid() && fresh(Repr() - old(Repr())) && ongoing == old(ongoing)
      ensures var s := old(Contents(rt));
        Contents(rt) == s.(nodes := s.nodes[v.key := v], pending := s.pending + {v.key})
    {
      ghost var s := Contents(rt);
      hide StrictWeakOrder, Ordered, OrderedAround, Heap.Valid, Heap.Ranks, Heap.Indexed, Heap.Entries;
      ghost var entries := pending.Entries();
      var e := new Entry<NodeValue>(v);
      PushAndFix(pending, e, v);
      nodes := nodes[v.key := e];
      hide Valid, Contents;
      OneAdded(old(nodes), entries, e);
      KeptBut(s, v.key, rt);
    }

    /** The list with one more node. */
    lemma OneAdded(prev: map<Bits, Entry<NodeValue>>, entries: set<Entry<NodeValue>>, e: Entry<NodeValue>)
      requires pending.less == NodeLess && pending.Valid()
      requires e.rank.key !in prev && nodes == prev[e.rank.key := e] && pending.Entries() == entries + {e}
      requires forall x :: x in prev ==> prev[x].rank.key == x && (prev[x] in entries || prev[x].index == -1)
      requires forall y :: y in entries ==> y.rank.key in prev && prev[y.rank.key] == y
      ensures Valid()
    {
      hide NodeLess, Heap.Valid, Heap.Entries;
    }

    /** Takes a new value for a node that is already waiting for its next check. */
    method Reorder(v: NodeValue, ghost rt: set<Bits>)
      requires Valid() && v.key in nodes && nodes[v.key].index >= 0
      modifies Repr()
      ensures Valid() && Repr() == old(Repr()) && ongoing == old(ongoing)
      ensures var s := old(Contents(rt));
        Contents(rt) == s.(nodes := s.nodes[v.key := v], pending := s.pending + {v.key})
    {
      ghost var s := Contents(rt);
      var e := nodes[v.key];
      InHeapByIndex(v.key);
      hide StrictWeakOrder, Ordered, OrderedAround, Heap.Valid, Heap.Ranks, Heap.Indexed, Heap.Entries;
      ghost var entries := pending.Entries();
      Refix(pending, e, v);
      hide Valid, Contents;
      OneMoved(entries, e);
      KeptBut(s, v.key, rt);
    }

    /** Takes a new value for a node being checked, which goes back to waiting. */
    method Requeue(v: NodeValue, ghost rt: set<Bits>)
      requires Valid() && v.key in nodes && nodes[v.key].index == -1
      modifies Repr()
      ensures Valid() && Repr() == old(Repr()) && ongoing == old(ongoing)
      ensures var s := old(Contents(rt));
        Contents(rt) == s.(nodes := s.nodes[v.key := v], pending := s.pending + {v.key})
    {
      ghost var s := Contents(rt);
      var e := nodes[v.key];
      InHeapByIndex(v.key);
      hide StrictWeakOrder, Ordered, OrderedAround, Heap.Valid, Heap.Ranks, Heap.Indexed, Heap.Entries;
      ghost var entries := pending.Entries();
      PushAndFix(pending, e, v);
      hide Valid, Contents;
      OneMoved(entries, e);
      KeptBut(s, v.key, rt);
    }

    /** The list with one of its entries put into the heap or taken out of it. */
    lemma OneMoved(entries: set<Entry<NodeValue>>, e: Entry<NodeValue>)
      requires pending.less == NodeLess && pending.Valid() && e.rank.key in nodes && nodes[e.rank.key] == e
      requires pending.Entries() == entries + {e} || (pending.Entries() == entries - {e} && e.index == -1)
      requires forall x :: x in nodes ==> nodes[x].rank.key == x && (nodes[x] in entries || nodes[x].index == -1 || nodes[x] == e)
      requires forall y :: y in entries ==> y.rank.key in nodes && nodes[y.rank.key] == y
      ensures Valid()
    {
      hide NodeLess, Heap.Valid, Heap.Entries;
    }

    /** An entry's index tells whether it is in the heap. */
    lemma InHeapByIndex(k: Bits)
      requires Valid() && k in nodes
      ensures nodes[k] in pending.Entries() <==> nodes[k].index >= 0
      ensures nodes[k] in pending.Entries() <==> nodes[k] in pending.items
    {
      if nodes[k] in pending.Entries() {
        Fixable(pending, nodes[k]);
      }
    }

    method Get(k: Bits, ghost rt: set<Bits>) returns (r: Option<NodeValue>)
      requires Valid()
      ensures r == if k in Contents(rt).nodes then Some(Contents(rt).nodes[k]) else None
      ensures r.Some? ==> r.value.key == k
    {
      r := if k in nodes then Some(nodes[k].rank) else None;
    }

    /** Drops a node and all that is known about it. */
    method Remove(k: Bits, ghost rt: set<Bits>)
      requires Valid()
      modifies Repr()
      ensures Valid() && fresh(Repr() - old(Repr()))
      ensures Contents(rt - {k}) == Forget(old(Contents(rt)), k)
    {
      hide *;
      Beside(k, rt);
      ForgetIs(Contents(rt), k);
      if k in nodes {
        Unlink(k, rt);
        DropOngoing(k, rt - {k});
      }
    }

    lemma Beside(k: Bits, rt: set<Bits>)
      ensures Contents(rt - {k}) == Contents(rt).(rt := rt - {k}) && Contents(rt).rt == rt
      ensures (k in nodes <==> k in Contents(rt).nodes) && this in Repr()
    {
    }

    method DropOngoing(k: Bits, ghost rt: set<Bits>)
      requires Valid()
      modifies this`ongoing
      ensures Valid() && Repr() == old(Repr())
      ensures Contents(rt) == old(Contents(rt)).(ongoing := Without(old(Contents(rt)).ongoing, k))
    {
      hide StrictWeakOrder, Ordered, OrderedAround, Heap.Valid, Heap.Ranks, Heap.Indexed, Heap.Entries;
      RemoveFromOngoing(k);
    }

    method Unlink(k: Bits, ghost rt: set<Bits>)
      requires Valid() && k in nodes
      modifies Repr()
      ensures Valid() && Repr() <= old(Repr()) && ongoing == old(ongoing)
      ensures var s := old(Contents(rt));
        forall rt' :: Contents(rt') == State(s.nodes - {k}, s.pending - {k}, s.ongoing, rt')
    {
      ghost var s := Contents(rt);
      var e := nodes[k];
      InHeapByIndex(k);
      hide StrictWeakOrder, Ordered, OrderedAround, Heap.Valid, Heap.Ranks, Heap.Indexed, Heap.Entries;
      ghost var entries := pending.Entries();
      RemoveIfIn(pending, e);
      nodes := nodes - {k};
      hide Valid, Contents;
      OneFewer(old(nodes), entries, k);
      GoneBut(s, k);
    }

    /** The list without a node. */
    lemma OneFewer(prev: map<Bits, Entry<NodeValue>>, entries: set<Entry<NodeValue>>, k: Bits)
      requires pending.less == NodeLess && pending.Valid() && k in prev && nodes == prev - {k}
      requires pending.Entries() == entries - {prev[k]}
      requires forall x :: x in prev ==> prev[x].rank.key == x && (prev[x] in entries || prev[x].index == -1)
      requires forall e :: e in entries ==> e.rank.key in prev && prev[e.rank.key] == e
      ensures Valid()
    {
      hide NodeLess, Heap.Valid, Heap.Entries;
    }

    lemma GoneBut(s: State, k: Bits)
      requires nodes.Keys == s.nodes.Keys - {k} && s.pending <= s.nodes.Keys
      requires forall x :: x in nodes ==> nodes[x].rank == s.nodes[x] && (nodes[x] in pending.Entries() <==> x in s.pending)
      ensures forall rt :: Contents(rt) == State(s.nodes - {k}, s.pending - {k}, ongoing, rt)
    {
    }

    method RemoveFromOngoing(k: Bits)
      modifies this`ongoing
      ensures ongoing == Without(old(ongoing), k)
    {
      var i := 0;
      while i < |ongoing|
        invariant i <= |ongoing| && ongoing == old(ongoing)
        invariant forall j :: 0 <= j < i ==> ongoing[j] != k
      {
        if ongoing[i] == k {
          var last := |ongoing| - 1;
          if |ongoing| > 1 {
            ongoing := ongoing[i := ongoing[last]][last := ongoing[i]];
          }
          ongoing := ongoing[..last];
          return;
        }
        i := i + 1;
      }
    }

    /** The first ongoing check that is past its deadline. */
    method FindCheckPastDeadline(now: Instant, ghost rt: set<Bits>) returns (r: Option<Bits>)
      requires Valid()
      ensures r == FirstLapsed(Contents(rt), |ongoing|, now)
    {
      var i := 0;
      while i < |ongoing|
        invariant i <= |ongoing|
        invariant FirstLapsed(Contents(rt), i, now).None?
      {
        var k := ongoing[i];
        if k !in nodes || nodes[k].rank.deadline <= now {
          r := Some(k);
          assert FirstLapsed(Contents(rt), i + 1, now) == r;
          FirstLapsedStays(i + 1, now, k, rt);
          return;
        }
        i := i + 1;
      }
      r := None;
    }

    lemma FirstLapsedStays(i: nat, now: Instant, k: Bits, rt: set<Bits>)
      requires i <= |ongoing| && FirstLapsed(Contents(rt), i, now) == Some(k)
      ensures FirstLapsed(Contents(rt), |ongoing|, now) == Some(k)
      decreases |ongoing| - i
    {
      if i < |ongoing| {
        FirstLapsedStays(i + 1, now, k, rt);
      }
    }

    /** The deadline of the ongoing check that expires soonest, zero if none is ongoing. */
    method NextDeadline(ghost rt: set<Bits>) returns (earliest: Instant)
      requires Valid()
      ensures earliest == ProbeSpec.NextDeadline(Contents(rt), |ongoing|)
    {
      earliest := 0;
      var i := 0;
      while i < |ongoing|
        invariant i <= |ongoing|
        invariant earliest == ProbeSpec.NextDeadline(Contents(rt), i)
      {
        if ongoing[i] in nodes {
          earliest := Earlier(earliest, nodes[ongoing[i]].rank.deadline);
        }
        i := i + 1;
      }
    }

    /** Nothing comes before the entry at the root of the heap. */
    lemma RootIsForemost(rt: set<Bits>)
      requires Valid() && |pending.items| > 0
      ensures var v := pending.items[0].rank;
        Foremost(Contents(rt), v.key) && v.key in Contents(rt).pending && Contents(rt).nodes[v.key] == v
    {
      var e := pending.items[0];
      assert e in pending.Entries() && nodes[e.rank.key] == e;
      forall k | k in nodes && nodes[k] in pending.Entries()
        ensures !NodeLess(nodes[k].rank, e.rank)
      {
        var i :| 0 <= i < |pending.items| && pending.items[i] == nodes[k];
        RootIsLeast(NodeLess, pending.Ranks(), i);
        assert pending.Ranks()[i] == nodes[k].rank && pending.Ranks()[0] == e.rank;
      }
      hide NodeLess, StrictWeakOrder, Ordered;
    }

    lemma EmptyHeap(rt: set<Bits>)
      requires Valid()
      ensures |pending.items| == 0 <==> Contents(rt).pending == {}
    {
      if |pending.items| > 0 {
        var e := pending.items[0];
        assert e in pending.Entries() && e.rank.key in Contents(rt).pending;
      }
    }

    /** The pending node that comes first, if its check is due. */
    method PeekNext(now: Instant, ghost rt: set<Bits>) returns (r: Option<NodeValue>, ghost h: Bits)
      requires Valid()
      ensures var s := Contents(rt);
        && Foremost(s, h)
        && (s.pending != {} ==> h in s.pending && h in s.nodes)
        && r == (if s.pending == {} || s.nodes[h].due > now then None else Some(s.nodes[h]))
        && (r.Some? ==> r.value.key == h)
    {
      EmptyHeap(rt);
      h := [];
      if |pending.items| == 0 {
        return None, h;
      }
      RootIsForemost(rt);
      hide *;
      var v := pending.items[0].rank;
      h := v.key;
      r := if v.due > now then None else Some(v);
    }

    /** The earliest time at which there could be something to do, zero if there is none. */
    method NextDue(ghost rt: set<Bits>, ghost h: Bits) returns (due: Instant)
      requires Valid() && Foremost(Contents(rt), h)
      ensures due == Earlier(HeadDue(Contents(rt), h), ProbeSpec.NextDeadline(Contents(rt), |ongoing|))
    {
      EmptyHeap(rt);
      var earliest := 0;
      if |pending.items| > 0 {
        RootIsForemost(rt);
        earliest := pending.items[0].rank.due;
        HeadDueUnique(Contents(rt), h, pending.items[0].rank.key);
      }
      hide Valid, Foremost;
      var expires := NextDeadline(rt);
      due := Earlier(earliest, expires);
    }

    /** Moves a pending node to the list of checks under way. */
    method MarkOngoing(k: Bits, deadline: Instant, ghost rt: set<Bits>)
      requires Valid() && k in Contents(rt).pending
      modifies Repr()
      ensures Valid() && fresh(Repr() - old(Repr()))
      ensures k in old(Contents(rt)).nodes && Contents(rt) == Begin(old(Contents(rt)), k, deadline)
    {
      hide *;
      Pends(k, rt);
      Beside(k, rt);
      BeginIs(Contents(rt), k, deadline);
      Suspend(k, deadline, rt);
      AddOngoing(k, rt);
    }

    lemma Pends(k: Bits, rt: set<Bits>)
      requires Valid() && k in Contents(rt).pending
      ensures k in nodes && nodes[k] in pending.Entries() && k in Contents(rt).nodes
    {
    }

    /** Records the deadline of a check and takes the node out of the heap. */
    method Suspend(k: Bits, deadline: Instant, ghost rt: set<Bits>)
      requires Valid() && k in nodes && nodes[k] in pending.Entries()
      modifies Repr()
      ensures Valid() && Repr() == old(Repr()) && ongoing == old(ongoing)
      ensures var s := old(Contents(rt));
        k in s.nodes && Contents(rt) == State(s.nodes[k := s.nodes[k].(deadline := deadline)], s.pending - {k}, s.ongoing, rt)
    {
      ghost var s := Contents(rt);
      var e := nodes[k];
      hide NodeLess, Begin, StrictWeakOrder, Ordered, OrderedAround, Heap.Valid, Heap.Ranks, Heap.Indexed, Heap.Entries;
      ghost var entries := pending.Entries();
      TakeOut(pending, e, deadline);
      hide Valid, Contents;
      OneMoved(entries, e);
      BegunBut(s, k, rt);
    }

    method AddOngoing(k: Bits, ghost rt: set<Bits>)
      requires Valid()
      modifies this`ongoing
      ensures Valid() && Repr() == old(Repr())
      ensures Contents(rt) == old(Contents(rt)).(ongoing := old(Contents(rt)).ongoing + [k])
    {
      hide StrictWeakOrder, Ordered, OrderedAround, Heap.Valid, Heap.Ranks, Heap.Indexed, Heap.Entries;
      ongoing := ongoing + [k];
    }

    lemma BegunBut(s: State, k: Bits, rt: set<Bits>)
      requires k in nodes && nodes.Keys == s.nodes.Keys && s.pending <= s.nodes.Keys
      requires forall x :: x in s.nodes && x != k ==> nodes[x].rank == s.nodes[x] && (nodes[x] in pending.Entries() <==> x in s.pending)
      requires nodes[k] !in pending.Entries()
      ensures Contents(rt) == State(s.nodes[k := nodes[k].rank], s.pending - {k}, ongoing, rt)
    {
    }
  }

  /** In an ordered heap every entry knows its place, and any place may be fixed. */
  lemma Fixable(heap: Heap<NodeValue>, e: Entry<NodeValue>)
    requires heap.Valid() && e in heap.Entries()
    ensures StrictWeakOrder(heap.less) && heap.Indexed()
    ensures 0 <= e.index < |heap.items| && heap.items[e.index] == e
    ensures OrderedAround(heap.less, heap.Ranks(), e.index)
  {
    ChangeOne(heap.less, heap.Ranks(), e.index, heap.Ranks()[e.index]);
    assert heap.Ranks()[e.index := heap.Ranks()[e.index]] == heap.Ranks();
  }

  /** Gives an entry outside the heap its rank and pushes it. */
  method PushAndFix(heap: Heap<NodeValue>, e: Entry<NodeValue>, v: NodeValue)
    requires heap.Valid() && e !in heap.Entries()
    modifies heap, heap.Entries()`index, e
    ensures heap.Valid() && heap.Entries() == old(heap.Entries()) + {e} && e.rank == v
  {
    ghost var ranks := heap.Ranks();
    e.rank := v;
    assert heap.Ranks() == ranks;
    hide StrictWeakOrder, Ordered, OrderedAround;
    heap.Push(e);
    Fixable(heap, e);
    heap.Fix(e.index);
  }

  /** A check's deadline plays no part in the order of the heap. */
  method SetDeadline(heap: Heap<NodeValue>, e: Entry<NodeValue>, deadline: Instant)
    requires heap.Valid() && heap.less == NodeLess && e in heap.Entries()
    modifies e`rank
    ensures heap.Valid() && e.rank == old(e.rank).(deadline := deadline)
  {
    ghost var ranks := heap.Ranks();
    ghost var r := ranks[e.index := ranks[e.index].(deadline := deadline)];
    assert heap.items[e.index] == e;
    forall j | 0 <= j < |r|
      ensures Above(NodeLess, r, j)
    {
      assert Above(NodeLess, ranks, j);
    }
    e.rank := e.rank.(deadline := deadline);
    assert heap.Ranks() == r;
  }

  /** Takes an entry out of the heap it is in, if it is in one. */
  method RemoveIfIn(heap: Heap<NodeValue>, e: Entry<NodeValue>)
    requires heap.Valid() && (e in heap.Entries() <==> e.index >= 0)
    modifies heap, heap.Entries()`index
    ensures heap.Valid() && heap.Entries() == old(heap.Entries()) - {e}
  {
    if e.index >= 0 {
      Fixable(heap, e);
      hide StrictWeakOrder, Ordered, OrderedAround;
      heap.Remove(e.index);
    }
  }

  /** Records the deadline of a check and takes its entry out of the heap. */
  method TakeOut(heap: Heap<NodeValue>, e: Entry<NodeValue>, deadline: Instant)
    requires heap.Valid() && heap.less == NodeLess && e in heap.Entries()
    modifies heap, heap.Entries()`index, e`rank
    ensures heap.Valid() && heap.Entries() == old(heap.Entries()) - {e}
    ensures e.rank == old(e.rank).(deadline := deadline) && e.index == -1
  {
    SetDeadline(heap, e, deadline);
    hide StrictWeakOrder, Ordered, OrderedAround;
    Fixable(heap, e);
    heap.Remove(e.index);
  }

  lemma AddIs(cfg: Config, s: State, now: Instant, k: Bits)
    requires ValidEvent(cfg, Event.Add(k))
    ensures Apply(cfg, s, now, Event.Add(k)) ==
      if k in s.rt then ProbeSpec.Put(s, NodeValue(k, CommonPrefixLength(cfg.self, k), now + cfg.checkInterval, 0)) else s
  {
  }

  class Probe {
    const cfg: Config
    const nvl: NodeValueList
    var rt: set<Bits>

    ghost function Repr(): set<object>
      reads this, nvl
    {
      {this} + nvl.Repr()
    }

    ghost predicate Valid()
      reads this, nvl, nvl.pending, nvl.pending.items, nvl.nodes.Values
    {
      cfg.Valid() && nvl.Valid() && this !in nvl.Repr()
    }

    ghost function Contents(): State
      reads this, nvl, nvl.pending, nvl.nodes.Values
    {
      nvl.Contents(rt)
    }

    constructor (cfg: Config, rt: set<Bits>)
      requires cfg.Valid()
      ensures Valid() && fresh(Repr()) && this.cfg == cfg
      ensures Contents() == State(map[], {}, [], rt) && Inv(cfg, Contents())
    {
      this.cfg := cfg;
      this.rt := rt;
      nvl := new NodeValueList();
    }

    method Advance(now: Instant, ev: Event) returns (out: Outcome)
      requires Valid() && ValidEvent(cfg, ev)
      modifies Repr()
      ensures Valid() && fresh(Repr() - old(Repr()))
      ensures Advances(cfg, old(Contents()), now, ev, Contents(), out)
    {
      ghost var s := Contents();
      if ev.Remove? || ev.CheckFailure? {
        DropNode(ev.node);
        ghost var h := SomeForemost(Contents());
        assert Contents() == Apply(cfg, s, now, ev) && Foremost(Apply(cfg, s, now, ev), h);
        assert (Contents(), NodeFailure(ev.node)) == ProbeSpec.Advance(cfg, s, now, ev, h);
        return NodeFailure(ev.node);
      }
      Note(now, ev);
      assert Contents() == Apply(cfg, s, now, ev);
      ghost var h;
      out, h := Housekeep(now);
      assert (Contents(), out) == ProbeSpec.Advance(cfg, s, now, ev, h);
    }

    /** What an event changes in the list of monitored nodes. */
    method Note(now: Instant, ev: Event)
      requires Valid() && ValidEvent(cfg, ev) && !ev.Remove? && !ev.CheckFailure?
      modifies Repr()
      ensures Valid() && fresh(Repr() - old(Repr()))
      ensures Contents() == Apply(cfg, old(Contents()), now, ev)
    {
      hide NodeValueList.Valid, NodeValueList.Contents, ProbeSpec.Put, ProbeSpec.Renew, CommonPrefixLength, Valid, Contents;
      match ev {
        case Poll =>
        case Add(k) => Monitor(k, now);
        case CheckSuccess(k) => Renew(k, now);
        case CheckDropped(k) => Renew(k, now);
        case NotifyConnectivity(k) => Renew(k, now);
      }
    }

    /** Starts monitoring a node of the routing table. */
    method Monitor(k: Bits, now: Instant)
      requires Valid() && ValidEvent(cfg, Event.Add(k))
      modifies Repr()
      ensures Valid() && fresh(Repr() - old(Repr()))
      ensures Contents() == Apply(cfg, old(Contents()), now, Event.Add(k))
    {
      assert Contents().rt == rt;
      hide NodeValueList.Valid, NodeValueList.Contents, ProbeSpec.Put, CommonPrefixLength, Apply;
      AddIs(cfg, Contents(), now, k);
      if k in rt {
        nvl.Put(NodeValue(k, CommonPrefixLength(cfg.self, k), now + cfg.checkInterval, 0), rt);
      }
    }

    method Renew(k: Bits, now: Instant)
      requires Valid()
      modifies Repr()
      ensures Valid() && fresh(Repr() - old(Repr()))
      ensures Contents() == ProbeSpec.Renew(cfg, old(Contents()), now, k)
    {
      hide NodeValueList.Valid, NodeValueList.Contents, ProbeSpec.Put;
      var v := nvl.Get(k, rt);
      if v.Some? {
        nvl.Put(v.value.(due := now + cfg.checkInterval), rt);
      }
    }

    /** Drops a node from the routing table and from the list. */
    method DropNode(k: Bits)
      requires Valid()
      modifies Repr()
      ensures Valid() && fresh(Repr() - old(Repr()))
      ensures Contents() == Forget(old(Contents()), k)
    {
      hide NodeValueList.Valid, NodeValueList.Contents, Forget;
      ghost var was := rt;
      rt := rt - {k};
      nvl.Remove(k, was);
    }

    /** Fails a check past its deadline, begins one that is due, or waits. */
    method Housekeep(now: Instant) returns (out: Outcome, ghost h: Bits)
      requires Valid()
      modifies Repr()
      ensures Valid() && fresh(Repr() - old(Repr()))
      ensures Foremost(old(Contents()), h) && (Contents(), out) == ProbeSpec.Housekeep(cfg, old(Contents()), now, h)
    {
      h := SomeForemost(Contents());
      assert Contents().ongoing == nvl.ongoing;
      hide NodeValueList.Valid, NodeValueList.Contents, Forget, FirstLapsed, ProbeSpec.NextDeadline, Foremost;
      var lapsed := nvl.FindCheckPastDeadline(now, rt);
      if lapsed.Some? {
        DropNode(lapsed.value);
        return NodeFailure(lapsed.value), h;
      }
      if AtCapacity() {
        var expires := nvl.NextDeadline(rt);
        return WaitingAtCapacity(expires), h;
      }
      out, h := StartOrWait(now);
    }

    /** With a check to spare, begins the one due first or waits. */
    method StartOrWait(now: Instant) returns (out: Outcome, ghost h: Bits)
      requires Valid() && !AtCapacity()
      requires FirstLapsed(Contents(), |Contents().ongoing|, now).None?
      modifies Repr()
      ensures Valid() && fresh(Repr() - old(Repr()))
      ensures Foremost(old(Contents()), h) && (Contents(), out) == ProbeSpec.Housekeep(cfg, old(Contents()), now, h)
    {
      hide NodeValueList.Valid, FirstLapsed, ProbeSpec.NextDeadline, Begin, Foremost, HeadDue, NodeLess, Earlier;
      var next;
      next, h := nvl.PeekNext(now, rt);
      assert Contents().ongoing == nvl.ongoing && Contents() == nvl.Contents(rt);
      PeekedHousekeep(cfg, Contents(), now, h);
      hide ProbeSpec.Housekeep, NodeValueList.Contents, Repr, Valid, Contents;
      if next.None? {
        var due := nvl.NextDue(rt, h);
        out := if |nvl.ongoing| > 0 then WaitingWithCapacity(due) else Idle(due);
      } else {
        StartCheck(next.value.key, now);
        out := ConnectivityCheck(next.value.key);
      }
    }

    method StartCheck(k: Bits, now: Instant)
      requires Valid() && k in Contents().pending
      modifies Repr()
      ensures Valid() && fresh(Repr() - old(Repr()))
      ensures k in old(Contents()).nodes && Contents() == Begin(old(Contents()), k, now + cfg.timeout)
    {
      hide NodeValueList.Valid, NodeValueList.Contents, Begin;
      nvl.MarkOngoing(k, now + cfg.timeout, rt);
    }

    /** Whether as many checks are under way as allowed. */
    predicate AtCapacity()
      reads this, nvl
    {
      cfg.concurrency <= |nvl.ongoing|
    }
  }

  /** What a poll does with no check past its deadline and one to spare. */
  lemma PeekedHousekeep(cfg: Config, s: State, now: Instant, h: Bits)
    requires FirstLapsed(s, |s.ongoing|, now).None? && |s.ongoing| < cfg.concurrency
    requires s.pending != {} ==> h in s.pending && h in s.nodes
    ensures s.pending == {} || s.nodes[h].due > now ==>
      var next := Earlier(HeadDue(s, h), ProbeSpec.NextDeadline(s, |s.ongoing|));
      ProbeSpec.Housekeep(cfg, s, now, h) == (s, if |s.ongoing| > 0 then WaitingWithCapacity(next) else Idle(next))
    ensures s.pending != {} && s.nodes[h].due <= now ==>
      ProbeSpec.Housekeep(cfg, s, now, h) == (Begin(s, h, now + cfg.timeout), ConnectivityCheck(h))
  {
  }

  lemma BeginIs(s: State, k: Bits, deadline: Instant)
    requires k in s.nodes
    ensures Begin(s, k, deadline) ==
      State(s.nodes[k := s.nodes[k].(deadline := deadline)], s.pending - {k}, s.ongoing + [k], s.rt)
  {
  }

  lemma ForgetIs(s: State, k: Bits)
    ensures k !in s.nodes ==> Forget(s, k) == s.(rt := s.rt - {k})
    ensures k in s.nodes ==>
      Forget(s, k) == State(s.nodes - {k}, s.pending - {k}, Without(s.ongoing, k), s.rt - {k})
  {
    hide Without;
  }

  lemma SomeForemost(s: State) returns (h: Bits)
    requires forall k :: k in s.pending ==> k in s.nodes
    ensures Foremost(s, h)
  {
    h := [];
    if s.pending != {} {
      h := ForemostExists(s, s.pending);
    }
  }
}
