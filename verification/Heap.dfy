/** The order kept by a binary min-heap, stated over the sequence of ranks it holds. */
module HeapOrder {

  /** less orders ranks by a strict weak order: asymmetric, with incomparability transitive. */
  ghost predicate StrictWeakOrder<R(!new)>(less: (R, R) -> bool) {
    && (forall a, b :: less(a, b) ==> !less(b, a))
    && (forall a, b, c :: less(a, c) ==> less(a, b) || less(b, c))
  }

  function Parent(i: nat): (p: nat)
    requires i > 0
    ensures p < i
  {
    (i - 1) / 2
  }

  /** The rank at i is not less than the one above it. */
  ghost predicate Above<R(!new)>(less: (R, R) -> bool, r: seq<R>, i: nat)
    requires i < |r|
  {
    i > 0 ==> !less(r[i], r[Parent(i)])
  }

  /** The rank at i is not less than the one two above it. */
  ghost predicate TwoAbove<R(!new)>(less: (R, R) -> bool, r: seq<R>, i: nat)
    requires i < |r|
  {
    i > 0 && Parent(i) > 0 ==> !less(r[i], r[Parent(Parent(i))])
  }

  ghost predicate Ordered<R(!new)>(less: (R, R) -> bool, r: seq<R>) {
    forall i :: 0 <= i < |r| ==> Above(less, r, i)
  }

  /** Ordered but for how x stands to what is directly above and below it. */
  ghost predicate OrderedAround<R(!new)>(less: (R, R) -> bool, r: seq<R>, x: nat) {
    && (forall i :: 0 <= i < |r| && i != x && !(i > 0 && Parent(i) == x) ==> Above(less, r, i))
    && ChildrenTwoAbove(less, r, x)
  }

  ghost predicate ChildrenTwoAbove<R(!new)>(less: (R, R) -> bool, r: seq<R>, x: nat) {
    forall i :: 0 < i < |r| && Parent(i) == x ==> TwoAbove(less, r, i)
  }

  ghost predicate ChildrenAbove<R(!new)>(less: (R, R) -> bool, r: seq<R>, x: nat) {
    forall i :: 0 < i < |r| && Parent(i) == x ==> Above(less, r, i)
  }

  function Swapped<R>(r: seq<R>, i: nat, j: nat): seq<R>
    requires i < |r| && j < |r|
  {
    r[i := r[j]][j := r[i]]
  }

  /** The root is least. */
  lemma {:induction false} RootIsLeast<R(!new)>(less: (R, R) -> bool, r: seq<R>, i: nat)
    requires StrictWeakOrder(less) && Ordered(less, r) && i < |r|
    ensures !less(r[i], r[0])
    decreases i
  {
    if i > 0 {
      RootIsLeast(less, r, Parent(i));
      assert Above(less, r, i);
    }
  }

  /** Changing one rank of an ordered heap disturbs the order only around it. */
  lemma ChangeOne<R(!new)>(less: (R, R) -> bool, r: seq<R>, x: nat, v: R)
    requires StrictWeakOrder(less) && Ordered(less, r) && x < |r|
    ensures OrderedAround(less, r[x := v], x)
  {
    var s := r[x := v];
    forall i | 0 <= i < |s| && i != x && !(i > 0 && Parent(i) == x)
      ensures Above(less, s, i)
    {
      assert Above(less, r, i);
    }
    forall i | 0 < i < |s| && Parent(i) == x
      ensures TwoAbove(less, s, i)
    {
      assert Above(less, r, i) && Above(less, r, x);
    }
  }

  /** A rank less than its parent trades places with it, and only the parent's place is left to check. */
  lemma MoveUp<R(!new)>(less: (R, R) -> bool, r: seq<R>, x: nat)
    requires StrictWeakOrder(less) && 0 < x < |r| && OrderedAround(less, r, x) && ChildrenAbove(less, r, x)
    requires less(r[x], r[Parent(x)])
    ensures OrderedAround(less, Swapped(r, Parent(x), x), Parent(x)) && ChildrenAbove(less, Swapped(r, Parent(x), x), Parent(x))
  {
    var p := Parent(x);
    var s := Swapped(r, p, x);
    assert Above(less, r, p);
    forall i | 0 <= i < |s|
      ensures i != p && !(i > 0 && Parent(i) == p) ==> Above(less, s, i)
      ensures i > 0 && Parent(i) == p ==> Above(less, s, i) && TwoAbove(less, s, i)
    {
      if i != x && i > 0 {
        if Parent(i) == x {
          assert Above(less, r, i) && TwoAbove(less, r, i);
        } else if i != p {
          assert Above(less, r, i);
        }
      }
    }
  }

  /** A rank trades places with its least child, and only the child's place is left to check. */
  lemma MoveDown<R(!new)>(less: (R, R) -> bool, r: seq<R>, x: nat, c: nat)
    requires StrictWeakOrder(less) && 0 < c < |r| && x == Parent(c) && OrderedAround(less, r, x)
    requires less(r[c], r[x])
    requires forall i :: 0 < i < |r| && Parent(i) == x ==> !less(r[i], r[c])
    ensures OrderedAround(less, Swapped(r, x, c), c) && Above(less, Swapped(r, x, c), c)
    ensures Above(less, Swapped(r, x, c), x)
  {
    var s := Swapped(r, x, c);
    assert TwoAbove(less, r, c);
    forall i | 0 <= i < |s|
      ensures i != c && !(i > 0 && Parent(i) == c) ==> Above(less, s, i)
      ensures i > 0 && Parent(i) == c ==> TwoAbove(less, s, i)
    {
      if i > 0 && i != c && i != x {
        if Parent(i) == c {
          assert Above(less, r, i);
        } else if Parent(i) != x {
          assert Above(less, r, i);
        }
      }
    }
  }

  /** A rank not greater than its least child is not greater than any child. */
  lemma ChildrenNotLess<R(!new)>(less: (R, R) -> bool, r: seq<R>, x: nat, c: nat)
    requires StrictWeakOrder(less) && x < |r| && c < |r| && !less(r[c], r[x])
    requires forall i :: 0 < i < |r| && Parent(i) == x ==> !less(r[i], r[c])
    ensures ChildrenAbove(less, r, x)
  {
  }

  /** With nothing out of place around x, the heap is ordered. */
  lemma Settled<R(!new)>(less: (R, R) -> bool, r: seq<R>, x: nat)
    requires x < |r| && OrderedAround(less, r, x) && ChildrenAbove(less, r, x) && Above(less, r, x)
    ensures Ordered(less, r)
  {
  }
}

/** The indexed min-heap behind the program's schedules: Go's container/heap push, fix and remove
    over a slice of entries, each of which records its own position in the slice. */
module Heap {
  import opened HeapOrder

  /** An entry in a heap. index is its position, or -1 when it is in no heap. */
  class Entry<R> {
    var rank: R
    var index: int

    constructor (rank: R)
      ensures this.rank == rank && index == -1
    {
      this.rank := rank;
      index := -1;
    }
  }

  class Heap<R(!new)> {
    const less: (R, R) -> bool
    var items: seq<Entry<R>>

    ghost function Entries(): set<Entry<R>>
      reads this
    {
      set e | e in items
    }

    ghost function Ranks(): (r: seq<R>)
      reads this, items
      ensures |r| == |items|
      ensures forall i :: 0 <= i < |r| ==> r[i] == items[i].rank
    {
      seq(|items|, i requires 0 <= i < |items| reads this, items => items[i].rank)
    }

    /** Every entry knows where it is, so none occurs twice. */
    ghost predicate Indexed()
      reads this, items
    {
      forall i :: 0 <= i < |items| ==> items[i].index == i
    }

    ghost predicate Valid()
      reads this, items
    {
      StrictWeakOrder(less) && Indexed() && Ordered(less, Ranks())
    }

    constructor (less: (R, R) -> bool)
      requires StrictWeakOrder(less)
      ensures Valid() && items == [] && this.less == less
    {
      this.less := less;
      items := [];
    }

    method Swap(i: nat, j: nat)
      requires i < |items| && j < |items| && Indexed()
      modifies this, Entries()`index
      ensures Indexed() && Entries() == old(Entries())
      ensures items == Swapped(old(items), i, j)
      ensures Ranks() == Swapped(old(Ranks()), i, j)
    {
      ghost var was := items;
      items := items[i := items[j]][j := items[i]];
      items[i].index := i;
      items[j].index := j;
      forall e ensures e in items <==> e in was {
        if e in items {
          var k :| 0 <= k < |items| && items[k] == e;
          assert e == was[k] || e == was[i] || e == was[j];
        }
        if e in was {
          var k :| 0 <= k < |was| && was[k] == e;
          assert e == items[k] || e == items[i] || e == items[j];
        }
      }
    }

    /** Moves the entry at j up until the one above it is not greater. */
    method Up(j: nat)
      requires StrictWeakOrder(less) && j < |items| && Indexed()
      requires OrderedAround(less, Ranks(), j) && ChildrenAbove(less, Ranks(), j)
      modifies this, Entries()`index
      ensures Valid() && Entries() == old(Entries()) && |items| == |old(items)|
    {
      var x := j;
      while x > 0 && less(items[x].rank, items[Parent(x)].rank)
        invariant 0 <= x < |items| == |old(items)| && Indexed() && Entries() == old(Entries())
        invariant OrderedAround(less, Ranks(), x) && ChildrenAbove(less, Ranks(), x)
        decreases x
      {
        MoveUp(less, Ranks(), x);
        hide OrderedAround, ChildrenAbove, StrictWeakOrder;
        var p := Parent(x);
        Swap(p, x);
        x := p;
      }
      Settled(less, Ranks(), x);
    }

    /** Moves the entry at i0 down past lesser children, reporting whether it moved. */
    method Down(i0: nat) returns (moved: bool)
      requires StrictWeakOrder(less) && i0 < |items| && Indexed() && OrderedAround(less, Ranks(), i0)
      modifies this, Entries()`index
      ensures Indexed() && Entries() == old(Entries()) && |items| == |old(items)|
      ensures moved ==> Ordered(less, Ranks())
      ensures !moved ==> OrderedAround(less, Ranks(), i0) && ChildrenAbove(less, Ranks(), i0)
    {
      var x := i0;
      while 2 * x + 1 < |items|
        invariant i0 <= x < |items| == |old(items)| && Indexed() && Entries() == old(Entries())
        invariant OrderedAround(less, Ranks(), x)
        invariant x > i0 ==> Above(less, Ranks(), x)
        decreases |items| - x
      {
        var c := LeastChild(x);
        if !less(items[c].rank, items[x].rank) {
          ChildrenNotLess(less, Ranks(), x, c);
          break;
        }
        MoveDown(less, Ranks(), x, c);
        hide OrderedAround, StrictWeakOrder, Above;
        Swap(x, c);
        x := c;
      }
      moved := x > i0;
      assert ChildrenAbove(less, Ranks(), x);
      if moved {
        Settled(less, Ranks(), x);
      }
    }

    /** The lesser of the children of the entry at x. */
    method LeastChild(x: nat) returns (c: nat)
      requires StrictWeakOrder(less) && 2 * x + 1 < |items|
      ensures x < c < |items| && Parent(c) == x
      ensures forall i :: 0 < i < |items| && Parent(i) == x ==> !less(Ranks()[i], Ranks()[c])
    {
      c := 2 * x + 1;
      if c + 1 < |items| && less(items[c + 1].rank, items[c].rank) {
        c := c + 1;
      }
      assert forall i :: 0 < i < |items| && Parent(i) == x ==> i == 2 * x + 1 || i == 2 * x + 2;
    }

    method Push(e: Entry<R>)
      requires Valid() && e !in items
      modifies this, Entries()`index, e`index
      ensures Valid() && |items| == |old(items)| + 1
      ensures Entries() == old(Entries()) + {e}
    {
      ghost var was := Ranks();
      e.index := |items|;
      items := items + [e];
      assert Ranks() == was + [e.rank];
      OrderedSnoc(less, was, e.rank);
      Up(|items| - 1);
    }

    /** Restores the order after the rank of the entry at i has changed. */
    method Fix(i: nat)
      requires StrictWeakOrder(less) && i < |items| && Indexed() && OrderedAround(less, Ranks(), i)
      modifies this, Entries()`index
      ensures Valid() && Entries() == old(Entries()) && |items| == |old(items)|
    {
      var moved := Down(i);
      if !moved {
        Up(i);
      }
    }

    /** Removes the entry at i: it trades places with the last, which then finds its own place. */
    method Remove(i: nat)
      requires Valid() && i < |items|
      modifies this, Entries()`index
      ensures Valid() && |items| == |old(items)| - 1
      ensures Entries() == old(Entries()) - {old(items)[i]}
      ensures old(items)[i].index == -1
    {
      ghost var was := Ranks();
      ghost var e := items[i];
      var n := |items| - 1;
      if i != n {
        Swap(i, n);
        ChangeOne(less, was, i, was[n]);
      }
      label swapped:
      assert items[n] == e;
      Pop();
      assert Ranks() == (if i != n then was[i := was[n]] else was)[..n];
      OrderedFront(less, was, i, n);
      if i != n {
        Fix(i);
      }
    }

    /** Drops the last entry. */
    method Pop()
      requires Indexed() && |items| > 0
      modifies this, Entries()`index
      ensures Indexed() && items == old(items)[..|old(items)| - 1]
      ensures Entries() == old(Entries()) - {old(items)[|old(items)| - 1]}
      ensures old(items)[|old(items)| - 1].index == -1
    {
      ghost var was := items;
      var e := items[|items| - 1];
      items := items[..|items| - 1];
      e.index := -1;
      forall f ensures f in items <==> f in was && f != e {
        if f in was && f != e {
          var k :| 0 <= k < |was| && was[k] == f;
          assert items[k] == f;
        }
      }
    }
  }

  lemma OrderedSnoc<R(!new)>(less: (R, R) -> bool, r: seq<R>, v: R)
    requires Ordered(less, r)
    ensures OrderedAround(less, r + [v], |r|) && ChildrenAbove(less, r + [v], |r|)
  {
    forall i | 0 <= i < |r| ensures Above(less, r + [v], i) {
      assert Above(less, r, i);
    }
  }

  lemma OrderedFront<R(!new)>(less: (R, R) -> bool, r: seq<R>, i: nat, n: nat)
    requires StrictWeakOrder(less) && Ordered(less, r) && i <= n == |r| - 1
    ensures i == n ==> Ordered(less, r[..n])
    ensures i < n ==> OrderedAround(less, r[i := r[n]][..n], i)
  {
    var s := r[..n];
    forall k | 0 <= k < n ensures Above(less, s, k) {
      assert Above(less, r, k);
    }
    if i < n {
      ChangeOne(less, s, i, r[n]);
      assert s[i := r[n]] == r[i := r[n]][..n];
    }
  }

  /** Changes the rank of an entry in the heap and restores the order. */
  method Refix<R(!new)>(heap: Heap<R>, e: Entry<R>, rank: R)
    requires heap.Valid() && e in heap.Entries()
    modifies heap, heap.Entries()`index, e`rank
    ensures heap.Valid() && heap.Entries() == old(heap.Entries()) && |heap.items| == |old(heap.items)| && e.rank == rank
  {
    ghost var ranks := heap.Ranks();
    assert heap.items[e.index] == e;
    ChangeOne(heap.less, ranks, e.index, rank);
    e.rank := rank;
    assert heap.Ranks() == ranks[e.index := rank];
    hide StrictWeakOrder, Ordered, OrderedAround;
    heap.Fix(e.index);
  }
}
