/** Exactly which regions a report makes of the region it is about: how far it merges, and into which parts it
    splits. Stated on the leaves of the map before the report and the number of members found. */
module RegionLaws {
  import opened Keys
  import opened Clock
  import opened Options
  import opened RegionTable
  import opened RegionProofs

  // ---------- Merging ----------

  /** The sibling of the region on the way to p that is one bit longer than l. */
  function Sibling(p: Bits, l: nat): Bits
    requires l < |p|
  {
    p[..l] + [!p[l]]
  }

  /** What a region holds once it has taken in its siblings down from p[..n], when count were found under p. */
  function Held(t: Trie, p: Bits, n: nat, count: nat): nat
    requires n <= |p|
    decreases |p| - n
  {
    if n == |p| then count else
    Held(t, p, n + 1, count) + (var s := LeafAt(t, Sibling(p, n)); if s.Some? then s.value.population else 0)
  }

  /** Two siblings merge into p[..l]: one is a surveyed region of at most minPopulation, and so is what the reported
      region has become by then. */
  ghost predicate MergesAt(cfg: Config, t: Trie, p: Bits, l: nat, count: nat)
    requires l < |p|
  {
    && Held(t, p, l + 1, count) <= cfg.minPopulation
    && var s := LeafAt(t, Sibling(p, l)); s.Some? && s.value.surveyed != 0 && s.value.population <= cfg.minPopulation
  }

  /** The reported region ends as p[..m]: it merges at each level down to m, and not beyond. */
  ghost predicate EndsAs(cfg: Config, t: Trie, p: Bits, m: nat, count: nat) {
    && m <= |p|
    && (forall l :: m <= l < |p| ==> MergesAt(cfg, t, p, l, count))
    && (m > 0 ==> !MergesAt(cfg, t, p, m - 1, count))
  }

  lemma {:induction false} HeldBelow(t: Trie, p: Bits, n: nat, count: nat)
    requires t.Split? && 0 < n <= |p|
    ensures Held(t, p, n, count) == Held(Child(t, p[0]), p[1..], n - 1, count)
    decreases |p| - n
  {
    if n < |p| {
      SiblingBelow(t, p, n);
      HeldBelow(t, p, n + 1, count);
    }
  }

  lemma SiblingBelow(t: Trie, p: Bits, l: nat)
    requires t.Split? && 0 < l < |p|
    ensures LeafAt(t, Sibling(p, l)) == LeafAt(Child(t, p[0]), Sibling(p[1..], l - 1))
  {
    assert Sibling(p, l)[1..] == Sibling(p[1..], l - 1);
  }

  lemma MergesBelow(cfg: Config, t: Trie, p: Bits, l: nat, count: nat)
    requires t.Split? && 0 < l < |p|
    ensures MergesAt(cfg, t, p, l, count) <==> MergesAt(cfg, Child(t, p[0]), p[1..], l - 1, count)
  {
    SiblingBelow(t, p, l);
    HeldBelow(t, p, l + 1, count);
    hide LeafAt, Sibling, Held;
  }

  /** A report that does not split its region: it ends as it must, with all that the merged regions held, and every
      region outside it stays as it was. */
  lemma {:induction false} MergesExactly(cfg: Config, t: Trie, p: Bits, depth: nat, members: seq<Bits>, now: Instant, a: Bits)
    returns (m: nat)
    requires KeysOf(cfg, members) && Names(t, p) && now > 0
    requires |members| <= cfg.maxPopulation || depth + |p| >= cfg.keyLen
    ensures EndsAs(cfg, t, p, m, |members|)
    ensures var u := ObserveNode(cfg, t, p, depth, members, now);
      && u.Some? && Names(u.value, p[..m])
      && LeafAt(u.value, p[..m]).value.population == Held(t, p, m, |members|)
      && LeafAt(u.value, p[..m]).value.surveyed != 0
      && (Names(u.value, a) <==> a == p[..m] || (Names(t, a) && !(p[..m] <= a)))
      && (Names(u.value, a) && a != p[..m] ==> LeafAt(u.value, a) == LeafAt(t, a))
    decreases |p|
  {
    hide *;
    NamesBelow(t, p);
    if t.Leaf? {
      m := 0;
      AloneExactly(cfg, t, depth, members, now, a);
      assert p == [];
    } else {
      var below := MergesExactly(cfg, Child(t, p[0]), p[1..], depth + 1, members, now, if |a| > 0 then a[1..] else []);
      m := Climb(cfg, t, p, below, |members|);
      RejoinsAs(cfg, t, p, depth, members, now);
      var v := ObserveNode(cfg, Child(t, p[0]), p[1..], depth + 1, members, now).value;
      ThenBelow(t, p, below, |members|, v, a);
      RejoinedExactly(cfg, t, p, below, |members|, m, v, a);
      ThenAfter(t, p, m, |members|, ObserveNode(cfg, t, p, depth, members, now).value, a);
    }
  }

  lemma RejoinsAs(cfg: Config, t: Trie, p: Bits, depth: nat, members: seq<Bits>, now: Instant)
    requires KeysOf(cfg, members) && t.Split? && |p| > 0
    ensures var v := ObserveNode(cfg, Child(t, p[0]), p[1..], depth + 1, members, now);
      v.Some? ==> ObserveNode(cfg, t, p, depth, members, now) == Some(Rejoin(cfg, p[0], v.value, Child(t, !p[0])))
  {
    hide Rejoin, BuildLeaf;
  }

  lemma ThenBelow(t: Trie, p: Bits, below: nat, count: nat, v: Trie, a: Bits)
    requires t.Split? && 0 < |p| && below < |p|
    requires var c, q, b := Child(t, p[0]), p[1..], if |a| > 0 then a[1..] else [];
      && Names(v, q[..below])
      && LeafAt(v, q[..below]).value.population == Held(c, q, below, count)
      && LeafAt(v, q[..below]).value.surveyed != 0
      && (Names(v, b) <==> b == q[..below] || (Names(c, b) && !(q[..below] <= b)))
      && (Names(v, b) && b != q[..below] ==> LeafAt(v, b) == LeafAt(c, b))
    ensures Below(t, p, below, count, v, a)
  {
    hide LeafAt, Held;
  }

  lemma ThenAfter(t: Trie, p: Bits, m: nat, count: nat, u: Trie, a: Bits)
    requires m <= |p| && After(t, p, m, count, u, a)
    ensures Names(u, p[..m]) && LeafAt(u, p[..m]).value.population == Held(t, p, m, count) && LeafAt(u, p[..m]).value.surveyed != 0
    ensures Names(u, a) <==> a == p[..m] || (Names(t, a) && !(p[..m] <= a))
    ensures Names(u, a) && a != p[..m] ==> LeafAt(u, a) == LeafAt(t, a)
  {
    hide LeafAt, Held;
  }

  lemma AloneExactly(cfg: Config, t: Trie, depth: nat, members: seq<Bits>, now: Instant, a: Bits)
    requires KeysOf(cfg, members) && t.Leaf? && now > 0
    requires |members| <= cfg.maxPopulation || depth >= cfg.keyLen
    ensures EndsAs(cfg, t, [], 0, |members|)
    ensures var u := ObserveNode(cfg, t, [], depth, members, now);
      && u.Some? && Names(u.value, [])
      && LeafAt(u.value, []).value.population == Held(t, [], 0, |members|) && LeafAt(u.value, []).value.surveyed != 0
      && (Names(u.value, a) <==> a == [])
  {
  }

  /** How far the region ends up, given how far it does below. */
  lemma Climb(cfg: Config, t: Trie, p: Bits, below: nat, count: nat) returns (m: nat)
    requires t.Split? && |p| > 0 && EndsAs(cfg, Child(t, p[0]), p[1..], below, count)
    ensures EndsAs(cfg, t, p, m, count) && below < |p|
    ensures m == if below == 0 && MergesAt(cfg, t, p, 0, count) then 0 else below + 1
  {
    m := if below == 0 && MergesAt(cfg, t, p, 0, count) then 0 else below + 1;
    forall l | 0 < l < |p| ensures MergesAt(cfg, t, p, l, count) <==> MergesAt(cfg, Child(t, p[0]), p[1..], l - 1, count) {
      MergesBelow(cfg, t, p, l, count);
    }
    hide MergesAt;
    forall l | m <= l < |p| ensures MergesAt(cfg, t, p, l, count) {
      if l > 0 {
        assert MergesAt(cfg, Child(t, p[0]), p[1..], l - 1, count);
      }
    }
  }

  /** The subtree v as it is below p[0], with the region that the report has made of p in it. */
  ghost predicate Below(t: Trie, p: Bits, below: nat, count: nat, v: Trie, a: Bits)
    requires t.Split? && 0 < |p| && below < |p|
  {
    var c, q := Child(t, p[0]), p[1..];
    && Names(v, q[..below])
    && LeafAt(v, q[..below]).value.population == Held(c, q, below, count)
    && LeafAt(v, q[..below]).value.surveyed != 0
    && (|a| > 0 ==>
          && (Names(v, a[1..]) <==> a[1..] == q[..below] || (Names(c, a[1..]) && !(q[..below] <= a[1..])))
          && (Names(v, a[1..]) && a[1..] != q[..below] ==> LeafAt(v, a[1..]) == LeafAt(c, a[1..])))
  }

  /** The map u, in which the reported region has become p[..m]. */
  ghost predicate After(t: Trie, p: Bits, m: nat, count: nat, u: Trie, a: Bits)
    requires m <= |p|
  {
    && Names(u, p[..m])
    && LeafAt(u, p[..m]).value.population == Held(t, p, m, count)
    && LeafAt(u, p[..m]).value.surveyed != 0
    && (Names(u, a) <==> a == p[..m] || (Names(t, a) && !(p[..m] <= a)))
    && (Names(u, a) && a != p[..m] ==> LeafAt(u, a) == LeafAt(t, a))
  }

  lemma RejoinedExactly(cfg: Config, t: Trie, p: Bits, below: nat, count: nat, m: nat, v: Trie, a: Bits)
    requires t.Split? && |p| > 0 && below < |p| && Below(t, p, below, count, v, a)
    requires m == if below == 0 && MergesAt(cfg, t, p, 0, count) then 0 else below + 1
    ensures After(t, p, m, count, Rejoin(cfg, p[0], v, Child(t, !p[0])), a)
  {
    HeldBelow(t, p, below + 1, count);
    hide *;
    MergesAtTop(cfg, t, p, below, count, v, a);
    if m == 0 {
      MergedTop(cfg, t, p, count, v, a);
    } else {
      JoinedTop(t, p, below, count, v, a);
    }
  }

  lemma OneDown(t: Trie, b: bool)
    requires t.Split?
    ensures LeafAt(t, [b]) == if Child(t, b).Leaf? then Some(Child(t, b)) else None
  {
    assert [b][1..] == [];
  }

  /** The children merge exactly when the reported region, as it has become, and its sibling do. */
  lemma MergesAtTop(cfg: Config, t: Trie, p: Bits, below: nat, count: nat, v: Trie, a: Bits)
    requires t.Split? && |p| > 0 && below < |p| && Below(t, p, below, count, v, a)
    requires Held(t, p, below + 1, count) == Held(Child(t, p[0]), p[1..], below, count)
    ensures SparseSurveyed(cfg, v) && SparseSurveyed(cfg, Child(t, !p[0])) <==> below == 0 && MergesAt(cfg, t, p, 0, count)
    ensures Rejoin(cfg, p[0], v, Child(t, !p[0])) ==
      if below == 0 && MergesAt(cfg, t, p, 0, count) then
        Leaf(v.population + Child(t, !p[0]).population, EarlierTime(v.surveyed, Child(t, !p[0]).surveyed))
      else Join(p[0], v, Child(t, !p[0]))
    ensures below == 0 ==> v.Leaf?
  {
    assert Sibling(p, 0) == [!p[0]];
    assert p[1..][..0] == [];
    OneDown(t, !p[0]);
    hide Held;
  }

  lemma MergedTop(cfg: Config, t: Trie, p: Bits, count: nat, v: Trie, a: Bits)
    requires t.Split? && |p| > 0 && Below(t, p, 0, count, v, a) && v.Leaf? && MergesAt(cfg, t, p, 0, count)
    requires Held(t, p, 1, count) == Held(Child(t, p[0]), p[1..], 0, count)
    ensures Child(t, !p[0]).Leaf?
    ensures After(t, p, 0, count, Leaf(v.population + Child(t, !p[0]).population, EarlierTime(v.surveyed, Child(t, !p[0]).surveyed)), a)
  {
    assert Sibling(p, 0) == [!p[0]];
    assert p[1..][..0] == [];
    assert p[..0] == [];
    OneDown(t, !p[0]);
  }

  lemma JoinedTop(t: Trie, p: Bits, below: nat, count: nat, v: Trie, a: Bits)
    requires t.Split? && |p| > 0 && below < |p| && Below(t, p, below, count, v, a)
    requires Held(t, p, below + 1, count) == Held(Child(t, p[0]), p[1..], below, count)
    ensures After(t, p, below + 1, count, Join(p[0], v, Child(t, !p[0])), a)
  {
    assert p[..below + 1] == [p[0]] + p[1..][..below] && p[..below + 1][1..] == p[1..][..below];
    if |a| > 0 {
      assert a == [a[0]] + a[1..];
    }
    hide Held;
  }

  // ---------- What a report does to the map ----------

  lemma AppliedHere(cfg: Config, t: Trie, p: Bits, members: seq<Bits>, now: Instant)
    requires KeysOf(cfg, members) && ObserveNode(cfg, t, p, 0, members, now).Some?
    ensures Observed(cfg, t, p, members, now) == ObserveNode(cfg, t, p, 0, members, now).value
  {
    hide ObserveNode;
  }

  /** A report of more than minPopulation members and no more than maxPopulation leaves the same regions on the map. */
  lemma SameRegions(cfg: Config, t: Trie, p: Bits, members: seq<Bits>, now: Instant, a: Bits)
    requires KeysOf(cfg, members) && now > 0 && cfg.minPopulation < |members| <= cfg.maxPopulation
    ensures Names(Observed(cfg, t, p, members, now), a) <==> Names(t, a)
    ensures a != p ==> LeafAt(Observed(cfg, t, p, members, now), a) == LeafAt(t, a)
    ensures Names(t, p) ==> var r := LeafAt(Observed(cfg, t, p, members, now), p); r.Some? && r.value.population == |members|
  {
    AppliedIffNamed(cfg, t, p, 0, members, now);
    if Names(t, p) {
      var m := MergesExactly(cfg, t, p, 0, members, now, a);
      AppliedHere(cfg, t, p, members, now);
      StaysWhole(cfg, t, p, m, |members|);
      assert p[..|p|] == p;
      if a != p && Names(t, a) && p <= a {
        PrefixFree(t, p, a);
      }
    }
    hide ObserveNode, LeafAt, EndsAs;
  }

  lemma StaysWhole(cfg: Config, t: Trie, p: Bits, m: nat, count: nat)
    requires EndsAs(cfg, t, p, m, count) && count > cfg.minPopulation
    ensures m == |p| && Held(t, p, m, count) == count
  {
    assert Held(t, p, |p|, count) == count;
    assert m < |p| ==> MergesAt(cfg, t, p, |p| - 1, count);
    hide LeafAt;
  }

  /** A reported region merges with its sibling exactly when both are surveyed regions of at most minPopulation. */
  lemma MergesExactlyWhenSparse(cfg: Config, t: Trie, p: Bits, members: seq<Bits>, now: Instant)
    requires KeysOf(cfg, members) && now > 0 && Names(t, p) && |p| > 0
    requires |members| <= cfg.maxPopulation || |p| >= cfg.keyLen
    ensures var s := LeafAt(t, p[..|p| - 1] + [!p[|p| - 1]]);
      !Names(Observed(cfg, t, p, members, now), p) <==>
        |members| <= cfg.minPopulation && s.Some? && s.value.surveyed != 0 && s.value.population <= cfg.minPopulation
  {
    var m := MergesExactly(cfg, t, p, 0, members, now, p);
    AppliedHere(cfg, t, p, members, now);
    assert p[..|p|] == p;
    assert Held(t, p, |p|, |members|) == |members|;
    assert m < |p| ==> MergesAt(cfg, t, p, |p| - 1, |members|);
    hide ObserveNode, LeafAt, Held;
  }

  /** A region that a report makes by merging lies above the reported one, and holds at most twice minPopulation. */
  lemma MergedIsSmall(cfg: Config, t: Trie, p: Bits, members: seq<Bits>, now: Instant, a: Bits)
    requires KeysOf(cfg, members) && now > 0
    requires |members| <= cfg.maxPopulation || |p| >= cfg.keyLen
    requires Names(Observed(cfg, t, p, members, now), a) && !Names(t, a)
    ensures a < p && LeafAt(Observed(cfg, t, p, members, now), a).value.population <= 2 * cfg.minPopulation
  {
    AppliedIffNamed(cfg, t, p, 0, members, now);
    assert Names(t, p);
    var m := MergesExactly(cfg, t, p, 0, members, now, a);
    AppliedHere(cfg, t, p, members, now);
    assert p[..|p|] == p;
    SmallAtEnd(cfg, t, p, m, |members|);
    hide ObserveNode, Held, LeafAt, EndsAs;
  }

  lemma SmallAtEnd(cfg: Config, t: Trie, p: Bits, m: nat, count: nat)
    requires EndsAs(cfg, t, p, m, count)
    ensures m < |p| ==> Held(t, p, m, count) <= 2 * cfg.minPopulation
    ensures m <= |p|
  {
    assert m < |p| ==> MergesAt(cfg, t, p, m, count);
    hide LeafAt;
  }

  // ---------- Splitting ----------

  /** The parts of a region that is to hold the given members: the shortest paths under which lie no more than
      maxPopulation of them, or the whole key. */
  lemma {:induction false} PartsExactly(cfg: Config, members: seq<Bits>, depth: nat, now: Instant, a: Bits)
    requires KeysOf(cfg, members) && depth <= cfg.keyLen
    ensures LongKeys(members, depth)
    ensures Names(BuildLeaf(cfg, members, depth, now), a) <==>
      && depth + |a| <= cfg.keyLen
      && (forall l :: 0 <= l < |a| ==> CountUnder(members, depth, a[..l]) > cfg.maxPopulation)
      && (CountUnder(members, depth, a) <= cfg.maxPopulation || depth + |a| == cfg.keyLen)
    decreases |a|
  {
    hide BuildLeaf, LeafAt, CountUnder, Group;
    CountAll(members, depth);
    BuiltAs(cfg, members, depth, now, a);
    if |a| > 0 && depth < cfg.keyLen {
      PartsExactly(cfg, Group(members, depth, a[0]), depth + 1, now, a[1..]);
      CountGroup(members, depth, a);
      forall l | 0 < l < |a|
        ensures CountUnder(Group(members, depth, a[0]), depth + 1, a[1..][..l - 1]) == CountUnder(members, depth, a[..l])
      {
        CountGroup(members, depth, a[..l]);
        assert a[..l][1..] == a[1..][..l - 1];
      }
      assert a[..0] == [];
      CountsShift(cfg, members, depth, a);
    } else if |a| > 0 {
      assert a[..0] == [];
    }
  }

  /** The keys have a bit at every depth below the given one. */
  ghost predicate LongKeys(members: seq<Bits>, depth: nat) {
    forall i :: 0 <= i < |members| ==> depth <= |members[i]|
  }

  lemma BuiltAs(cfg: Config, members: seq<Bits>, depth: nat, now: Instant, a: Bits)
    requires KeysOf(cfg, members) && depth <= cfg.keyLen
    ensures LongKeys(members, depth)
    ensures |a| == 0 ==> (Names(BuildLeaf(cfg, members, depth, now), a) <==> |members| <= cfg.maxPopulation || depth == cfg.keyLen)
    ensures |a| > 0 ==> (Names(BuildLeaf(cfg, members, depth, now), a) <==>
      |members| > cfg.maxPopulation && depth < cfg.keyLen && Names(BuildLeaf(cfg, Group(members, depth, a[0]), depth + 1, now), a[1..]))
  {
    hide Group;
  }

  /** Counting below a path is counting in its group, one bit on. */
  lemma CountsShift(cfg: Config, members: seq<Bits>, depth: nat, a: Bits)
    requires |a| > 0 && LongKeys(members, depth) && LongKeys(members, depth + 1)
    requires LongKeys(Group(members, depth, a[0]), depth + 1) && CountUnder(members, depth, a[..0]) == |members|
    requires forall l :: 0 < l < |a| ==>
      CountUnder(Group(members, depth, a[0]), depth + 1, a[1..][..l - 1]) == CountUnder(members, depth, a[..l])
    ensures (forall l :: 0 <= l < |a| ==> CountUnder(members, depth, a[..l]) > cfg.maxPopulation) <==>
      && |members| > cfg.maxPopulation
      && forall l :: 0 <= l < |a[1..]| ==> CountUnder(Group(members, depth, a[0]), depth + 1, a[1..][..l]) > cfg.maxPopulation
  {
    hide CountUnder, Group;
    if forall l :: 0 <= l < |a| ==> CountUnder(members, depth, a[..l]) > cfg.maxPopulation {
      assert CountUnder(members, depth, a[..0]) > cfg.maxPopulation;
      forall l | 0 <= l < |a[1..]| ensures CountUnder(Group(members, depth, a[0]), depth + 1, a[1..][..l]) > cfg.maxPopulation {
        assert CountUnder(members, depth, a[..l + 1]) > cfg.maxPopulation;
      }
    }
    if forall l :: 0 <= l < |a[1..]| ==> CountUnder(Group(members, depth, a[0]), depth + 1, a[1..][..l]) > cfg.maxPopulation {
      forall l | 0 < l < |a| ensures CountUnder(members, depth, a[..l]) > cfg.maxPopulation {
        assert CountUnder(Group(members, depth, a[0]), depth + 1, a[1..][..l - 1]) > cfg.maxPopulation;
      }
    }
  }

  /** A report that splits its region leaves every other as it was, and makes of it the shortest prefixes under which
      lie no more than maxPopulation of the members found. */
  lemma SplitsExactly(cfg: Config, t: Trie, p: Bits, members: seq<Bits>, now: Instant, a: Bits)
    requires KeysOf(cfg, members) && Names(t, p) && |members| > cfg.maxPopulation && |p| < cfg.keyLen
    ensures LongKeys(members, |p|)
    ensures !(p <= a) ==> (Names(Observed(cfg, t, p, members, now), a) <==> Names(t, a))
    ensures p <= a ==> (Names(Observed(cfg, t, p, members, now), a) <==>
      && |a| <= cfg.keyLen
      && (forall l :: 0 <= l < |a| - |p| ==> CountUnder(members, |p|, a[|p|..][..l]) > cfg.maxPopulation)
      && (CountUnder(members, |p|, a[|p|..]) <= cfg.maxPopulation || |a| == cfg.keyLen))
  {
    SplitAlone(cfg, t, p, 0, members, now, a);
    AppliedHere(cfg, t, p, members, now);
    if p <= a {
      PartsExactly(cfg, members, |p|, now, a[|p|..]);
    }
    hide ObserveNode, BuildLeaf, CountUnder, LeafAt, Observed;
  }
}
