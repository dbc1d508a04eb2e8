/** When each region is next due to be surveyed: a heap of entries and an index from prefix to entry. */
module Schedule {
  import opened Keys
  import opened Clock
  import opened Options
  import opened HeapOrder
  import opened Heap

  datatype Due = Due(due: Instant, prefix: Bits)

  /** The order of prefixes as strings of '0' and '1'. */
  predicate StringLess(a: Bits, b: Bits) {
    if |b| == 0 then false
    else if |a| == 0 then true
    else if a[0] == b[0] then StringLess(a[1..], b[1..])
    else b[0]
  }

  /** Earlier first, and among regions due together the lesser prefix. */
  predicate DueLess(a: Due, b: Due) {
    if a.due == b.due then StringLess(a.prefix, b.prefix) else a.due < b.due
  }

  /** A string comes before those it is a proper prefix of, and those it parts from at a bit that it has clear. */
  lemma {:induction false} StringLessExactly(a: Bits, b: Bits)
    ensures StringLess(a, b) <==> a < b || Precedes(a, b)
  {
    if |a| > 0 && |b| > 0 {
      StringLessExactly(a[1..], b[1..]);
      assert a == [a[0]] + a[1..] && b == [b[0]] + b[1..];
      if a[0] == b[0] {
        PartsBelow(a, b);
      } else {
        PartsHere(a, b);
      }
    }
  }

  lemma PartsHere(a: Bits, b: Bits)
    requires |a| > 0 && |b| > 0 && a[0] != b[0]
    ensures Precedes(a, b) <==> b[0]
  {
    forall n: nat | n < |a| && n < |b|
      ensures PartAt(a, b, n) ==> n == 0
    {
      if n > 0 {
        assert a[..n][0] == a[0] && b[..n][0] == b[0];
      }
    }
    assert PartAt(a, b, 0) <==> b[0];
  }

  /** Strings that begin alike part where their tails do. */
  lemma PartsBelow(a: Bits, b: Bits)
    requires |a| > 0 && |b| > 0 && a[0] == b[0]
    ensures Precedes(a, b) <==> Precedes(a[1..], b[1..])
  {
    if n: nat :| PartAt(a, b, n) {
      assert a[1..][..n - 1] == a[..n][1..] && b[1..][..n - 1] == b[..n][1..];
      assert PartAt(a[1..], b[1..], n - 1);
    }
    if n: nat :| PartAt(a[1..], b[1..], n) {
      assert a[..n + 1] == [a[0]] + a[1..][..n] && b[..n + 1] == [b[0]] + b[1..][..n];
      assert PartAt(a, b, n + 1);
    }
  }

  lemma {:induction false} StringLessAsymmetric(a: Bits, b: Bits)
    ensures !(StringLess(a, b) && StringLess(b, a))
  {
    if |a| > 0 && |b| > 0 && a[0] == b[0] {
      StringLessAsymmetric(a[1..], b[1..]);
    }
  }

  lemma {:induction false} StringLessWeak(a: Bits, b: Bits, c: Bits)
    requires StringLess(a, c)
    ensures StringLess(a, b) || StringLess(b, c)
  {
    if |a| > 0 && |b| > 0 && a[0] == b[0] == c[0] {
      StringLessWeak(a[1..], b[1..], c[1..]);
    }
  }

  lemma DueLessOrders()
    ensures StrictWeakOrder(DueLess)
  {
    forall a, b | DueLess(a, b) ensures !DueLess(b, a) {
      StringLessAsymmetric(a.prefix, b.prefix);
    }
    forall a, b, c | DueLess(a, c) ensures DueLess(a, b) || DueLess(b, c) {
      if a.due == c.due {
        StringLessWeak(a.prefix, b.prefix, c.prefix);
      }
    }
  }

  class RegionSchedule {
    const heap: Heap<Due>
    var index: map<Bits, Entry<Due>>

    ghost function Repr(): set<object>
      reads this, heap
    {
      {this, heap} + heap.Entries()
    }

    /** Index and heap hold the same entries, each under its own prefix and at its recorded place. */
    ghost predicate Valid()
      reads this, heap, heap.items
    {
      && heap.less == DueLess && heap.Valid()
      && (forall e :: e in heap.Entries() ==> e.rank.prefix in index && index[e.rank.prefix] == e)
      && (forall p :: p in index ==> index[p] in heap.Entries() && index[p].rank.prefix == p)
    }

    /** The due time of every scheduled region. */
    ghost function Dues(): map<Bits, Instant>
      reads this, index.Values
    {
      map p | p in index :: index[p].rank.due
    }

    constructor ()
      ensures Valid() && fresh(Repr()) && Dues() == map[]
    {
      DueLessOrders();
      heap := new Heap<Due>(DueLess);
      index := map[];
    }

    /** Schedules a region, or moves one already scheduled. */
    method Add(region: Bits, due: Instant)
      requires Valid()
      modifies Repr()
      ensures Valid() && fresh(Repr() - old(Repr()))
      ensures Dues() == old(Dues())[region := due]
    {
      if region in index {
        Move(region, due);
      } else {
        Insert(region, due);
      }
    }

    method Move(region: Bits, due: Instant)
      requires Valid() && region in index
      modifies Repr()
      ensures Valid() && Repr() == old(Repr())
      ensures Dues() == old(Dues())[region := due]
    {
      hide DueLess, Heap.Valid, Heap.Entries;
      ghost var was, entries := Dues(), heap.Entries();
      Refix(heap, index[region], Due(due, region));
      hide Valid, Dues;
      SameRegions(entries);
      DuesBut(was, region);
    }

    /** The schedule with one due time changed. */
    lemma SameRegions(entries: set<Entry<Due>>)
      requires heap.less == DueLess && heap.Valid() && heap.Entries() == entries
      requires forall e :: e in entries ==> e.rank.prefix in index && index[e.rank.prefix] == e
      requires forall p :: p in index ==> index[p] in entries && index[p].rank.prefix == p
      ensures Valid()
    {
      hide DueLess, Heap.Valid, Heap.Entries;
    }

    method Insert(region: Bits, due: Instant)
      requires Valid() && region !in index
      modifies Repr()
      ensures Valid() && fresh(Repr() - old(Repr()))
      ensures Dues() == old(Dues())[region := due]
    {
      hide StrictWeakOrder, Ordered, Heap.Valid, Heap.Ranks, Heap.Indexed, Heap.Entries;
      ghost var was, entries := Dues(), heap.Entries();
      var e := new Entry<Due>(Due(due, region));
      heap.Push(e);
      index := index[region := e];
      hide Valid, Dues;
      OneMore(old(index), entries, e);
      DuesBut(was, region);
    }

    /** The schedule with one more region. */
    lemma OneMore(prev: map<Bits, Entry<Due>>, entries: set<Entry<Due>>, e: Entry<Due>)
      requires heap.less == DueLess && heap.Valid()
      requires e.rank.prefix !in prev && index == prev[e.rank.prefix := e] && heap.Entries() == entries + {e}
      requires forall x :: x in entries ==> x.rank.prefix in prev && prev[x.rank.prefix] == x
      requires forall p :: p in prev ==> prev[p] in entries && prev[p].rank.prefix == p
      ensures Valid()
    {
      hide DueLess, Heap.Valid, Heap.Entries;
    }

    lemma DuesBut(was: map<Bits, Instant>, region: Bits)
      requires region in index && index.Keys == was.Keys + {region}
      requires forall p :: p in was && p != region ==> index[p].rank.due == was[p]
      ensures Dues() == was[region := index[region].rank.due]
    {
    }

    /** Drops a region from the schedule. */
    method Remove(region: Bits)
      requires Valid()
      modifies Repr()
      ensures Valid() && fresh(Repr() - old(Repr()))
      ensures Dues() == old(Dues()) - {region}
    {
      hide StrictWeakOrder, Ordered;
      if region !in index {
        assert old(Dues()) - {region} == old(Dues());
        return;
      }
      var e := index[region];
      assert heap.items[e.index] == e;
      ghost var entries := heap.Entries();
      ghost var was := Dues();
      hide DueLess, Heap.Valid, Heap.Ranks, Heap.Indexed, Heap.Entries;
      heap.Remove(e.index);
      index := index - {region};
      hide Valid, Dues;
      OneFewer(old(index), entries, region);
      DuesLess(was, region);
    }

    lemma DuesLess(was: map<Bits, Instant>, region: Bits)
      requires index.Keys == was.Keys - {region} && forall p :: p in index ==> index[p].rank.due == was[p]
      ensures Dues() == was - {region}
    {
    }

    /** The schedule without a region. */
    lemma OneFewer(prev: map<Bits, Entry<Due>>, entries: set<Entry<Due>>, p: Bits)
      requires heap.less == DueLess && heap.Valid() && p in prev && index == prev - {p} && heap.Entries() == entries - {prev[p]}
      requires forall e :: e in entries ==> e.rank.prefix in prev && prev[e.rank.prefix] == e
      requires forall x :: x in prev ==> prev[x] in entries && prev[x].rank.prefix == x
      ensures Valid()
    {
      hide DueLess, Heap.Valid, Heap.Entries;
    }

    method DueOf(region: Bits) returns (r: Option<Instant>)
      requires Valid()
      ensures r == if region in Dues() then Some(Dues()[region]) else None
    {
      r := if region in index then Some(index[region].rank.due) else None;
    }

    /** The region due first, without removing it. */
    method Peek() returns (r: Option<Due>)
      requires Valid()
      ensures r.None? <==> Dues() == map[]
      ensures r.Some? ==> FirstDue(Dues(), r.value.prefix) && r.value.due == Dues()[r.value.prefix]
    {
      if |heap.items| == 0 {
        return None;
      }
      var e := heap.items[0];
      assert e in heap.Entries();
      forall p | p in index
        ensures !DueLess(Due(index[p].rank.due, p), e.rank)
      {
        var i :| 0 <= i < |heap.items| && heap.items[i] == index[p];
        RootIsLeast(DueLess, heap.Ranks(), i);
        assert heap.Ranks()[i] == Due(index[p].rank.due, p) && heap.Ranks()[0] == e.rank;
      }
      r := Some(e.rank);
    }
  }

  /** p is due no later than any other region, and first by prefix among those due with it. */
  ghost predicate FirstDue(dues: map<Bits, Instant>, p: Bits) {
    p in dues && forall q :: q in dues ==> !DueLess(Due(dues[q], q), Due(dues[p], p))
  }
}
