/** What every sequence of surveys keeps of the region map. */
module RegionProofs {
  import opened Keys
  import opened Clock
  import opened Options
  import opened RegionTable

  // ---------- Tiling ----------

  /** Every key falls in a region: the one located, whose prefix the key carries and which no other
      region's prefix does. */
  lemma {:induction false} Tiling(t: Trie, k: Bits)
    requires DepthWithin(t, |k|)
    ensures Names(t, LocatePrefix(t, k))
    ensures forall p :: Names(t, p) && HasPrefix(k, p) ==> p == LocatePrefix(t, k)
    decreases t
  {
    if t.Split? {
      Tiling(Child(t, k[0]), k[1..]);
      var q := LocatePrefix(Child(t, k[0]), k[1..]);
      assert ([k[0]] + q)[1..] == q;
      forall p | Names(t, p) && HasPrefix(k, p)
        ensures p == [k[0]] + q
      {
        assert p[0] == k[0] && HasPrefix(k[1..], p[1..]);
        assert p == [p[0]] + p[1..];
      }
    }
  }

  /** No region's prefix extends another's. */
  lemma {:induction false} PrefixFree(t: Trie, p: Bits, q: Bits)
    requires Names(t, p) && Names(t, q) && p <= q
    ensures p == q
    decreases t
  {
    if t.Split? {
      PrefixFree(Child(t, p[0]), p[1..], q[1..]);
      assert p == [p[0]] + p[1..] && q == [q[0]] + q[1..];
    }
  }

  lemma {:induction false} NamesWithin(t: Trie, p: Bits, n: nat)
    requires Names(t, p) && DepthWithin(t, n)
    ensures |p| <= n
    decreases t
  {
    if t.Split? {
      NamesWithin(Child(t, p[0]), p[1..], n - 1);
    }
  }

  /** The listed regions are exactly the leaves, each with its own population and freshness. */
  lemma {:induction false} RegionsAreLeaves(t: Trie, prefix: Bits, r: Region)
    ensures r in Regions(t, prefix) <==>
      prefix <= r.prefix && LeafAt(t, r.prefix[|prefix|..]) == Some(Leaf(r.population, r.surveyed))
    decreases t
  {
    match t
    case Leaf(_, _) =>
      if prefix <= r.prefix && |r.prefix| == |prefix| {
        assert r.prefix == prefix;
      }
    case Split(zero, one) =>
      RegionsAreLeaves(zero, prefix + [false], r);
      RegionsAreLeaves(one, prefix + [true], r);
      Descend(prefix, r.prefix);
  }

  /** Which child a longer prefix goes to. */
  lemma Descend(prefix: Bits, p: Bits)
    ensures prefix <= p && |p| > |prefix| ==>
      && prefix + [p[|prefix|]] <= p
      && p[|prefix|..][0] == p[|prefix|]
      && p[|prefix|..][1..] == p[|prefix| + 1..]
    ensures forall b :: prefix + [b] <= p ==> prefix <= p && |p| > |prefix| && p[|prefix|] == b
  {
    forall b | prefix + [b] <= p
      ensures prefix <= p && |p| > |prefix| && p[|prefix|] == b
    {
      assert p[..|prefix| + 1] == prefix + [b];
      assert p[..|prefix|] == p[..|prefix| + 1][..|prefix|] == prefix;
    }
  }

  lemma {:induction false} PrefixesAreLeaves(t: Trie, prefix: Bits, p: Bits)
    ensures p in LeafPrefixes(t, prefix) <==> prefix <= p && Names(t, p[|prefix|..])
    decreases t
  {
    match t
    case Leaf(_, _) =>
      if prefix <= p && |p| == |prefix| {
        assert p == prefix;
      }
    case Split(zero, one) =>
      PrefixesAreLeaves(zero, prefix + [false], p);
      PrefixesAreLeaves(one, prefix + [true], p);
      Descend(prefix, p);
  }

  lemma NamesListed(t: Trie, p: Bits)
    ensures p in LeafPrefixes(t, []) <==> Names(t, p)
  {
    PrefixesAreLeaves(t, [], p);
    assert p[0..] == p;
  }

  // ---------- Depth ----------

  lemma {:induction false} BuildTrieDepth(d: nat, n: nat)
    requires d <= n
    ensures DepthWithin(BuildTrie(d), n)
  {
    if d > 0 {
      BuildTrieDepth(d - 1, n - 1);
    }
  }

  lemma {:induction false} BuildLeafDepth(cfg: Config, members: seq<Bits>, depth: nat, now: Instant)
    requires KeysOf(cfg, members) && depth <= cfg.keyLen
    ensures DepthWithin(BuildLeaf(cfg, members, depth, now), cfg.keyLen - depth)
    decreases cfg.keyLen - depth
  {
    if |members| > cfg.maxPopulation && depth < cfg.keyLen {
      BuildLeafDepth(cfg, Group(members, depth, false), depth + 1, now);
      BuildLeafDepth(cfg, Group(members, depth, true), depth + 1, now);
    }
  }

  /** No survey makes a region finer than a key. */
  lemma {:induction false} ObserveDepth(cfg: Config, t: Trie, rest: Bits, depth: nat, members: seq<Bits>, now: Instant)
    requires KeysOf(cfg, members) && depth <= cfg.keyLen && DepthWithin(t, cfg.keyLen - depth)
    ensures var u := ObserveNode(cfg, t, rest, depth, members, now); u.Some? ==> DepthWithin(u.value, cfg.keyLen - depth)
    decreases t
  {
    if t.Leaf? {
      BuildLeafDepth(cfg, members, depth, now);
    } else if |rest| > 0 {
      ObserveDepth(cfg, Child(t, rest[0]), rest[1..], depth + 1, members, now);
    }
  }

  /** An observation is applied exactly when its prefix names a region. */
  lemma {:induction false} AppliedIffNamed(cfg: Config, t: Trie, rest: Bits, depth: nat, members: seq<Bits>, now: Instant)
    requires KeysOf(cfg, members)
    ensures ObserveNode(cfg, t, rest, depth, members, now).Some? <==> Names(t, rest)
    decreases t
  {
    if t.Split? && |rest| > 0 {
      AppliedIffNamed(cfg, Child(t, rest[0]), rest[1..], depth + 1, members, now);
    }
  }

  // ---------- Population ----------

  lemma {:induction false} GroupsPart(members: seq<Bits>, depth: nat)
    requires forall i :: 0 <= i < |members| ==> depth < |members[i]|
    ensures |Group(members, depth, false)| + |Group(members, depth, true)| == |members|
  {
    if |members| > 0 {
      GroupsPart(members[..|members| - 1], depth);
    }
  }

  lemma {:induction false} BuildLeafPopulation(cfg: Config, members: seq<Bits>, depth: nat, now: Instant)
    requires KeysOf(cfg, members)
    ensures Population(BuildLeaf(cfg, members, depth, now)) == |members|
    decreases cfg.keyLen - depth
  {
    if |members| > cfg.maxPopulation && depth < cfg.keyLen {
      BuildLeafPopulation(cfg, Group(members, depth, false), depth + 1, now);
      BuildLeafPopulation(cfg, Group(members, depth, true), depth + 1, now);
      GroupsPart(members, depth);
    }
  }

  /** An applied observation changes the recorded population by exactly the members found less the
      region's old population, through any split and any cascade of merges. */
  lemma {:induction false} PopulationConserved(cfg: Config, t: Trie, rest: Bits, depth: nat, members: seq<Bits>, now: Instant)
    requires KeysOf(cfg, members) && Names(t, rest)
    ensures var u := ObserveNode(cfg, t, rest, depth, members, now);
      u.Some? && Population(u.value) == Population(t) - LeafAt(t, rest).value.population + |members|
    ensures LeafAt(t, rest).value.population <= Population(t)
    decreases t
  {
    if t.Leaf? {
      BuildLeafPopulation(cfg, members, depth, now);
    } else {
      PopulationConserved(cfg, Child(t, rest[0]), rest[1..], depth + 1, members, now);
    }
  }

  /** The number of members that lie under path p, counted from the bit at the given depth. */
  function CountUnder(members: seq<Bits>, depth: nat, p: Bits): nat
    requires forall i :: 0 <= i < |members| ==> depth <= |members[i]|
  {
    if |members| == 0 then 0 else
    var last := members[|members| - 1];
    CountUnder(members[..|members| - 1], depth, p) + (if p <= last[depth..] then 1 else 0)
  }

  lemma {:induction false} CountAll(members: seq<Bits>, depth: nat)
    requires forall i :: 0 <= i < |members| ==> depth <= |members[i]|
    ensures CountUnder(members, depth, []) == |members|
  {
    if |members| > 0 {
      CountAll(members[..|members| - 1], depth);
    }
  }

  /** The members of a group that lie under a path are those that lie under it with the group's bit in front. */
  lemma {:induction false} CountGroup(members: seq<Bits>, depth: nat, p: Bits)
    requires |p| > 0 && forall i :: 0 <= i < |members| ==> depth < |members[i]|
    ensures var g := Group(members, depth, p[0]);
      && (forall i :: 0 <= i < |g| ==> depth + 1 <= |g[i]|)
      && CountUnder(g, depth + 1, p[1..]) == CountUnder(members, depth, p)
  {
    hide *;
    if |members| == 0 {
      CountNone(depth, p);
    } else {
      var init, last := members[..|members| - 1], members[|members| - 1];
      CountGroup(init, depth, p);
      HeadAndTail(p, last, depth);
      GroupSnoc(members, depth, p[0]);
      CountSnoc(init, last, depth, p);
      assert init + [last] == members;
      CountSnoc(Group(init, depth, p[0]), last, depth + 1, p[1..]);
    }
  }

  lemma CountNone(depth: nat, p: Bits)
    requires |p| > 0
    ensures Group([], depth, p[0]) == [] && CountUnder([], depth + 1, p[1..]) == CountUnder([], depth, p) == 0
  {
  }

  lemma GroupSnoc(members: seq<Bits>, depth: nat, b: bool)
    requires |members| > 0 && forall i :: 0 <= i < |members| ==> depth < |members[i]|
    ensures var last := members[|members| - 1];
      var g := Group(members[..|members| - 1], depth, b);
      Group(members, depth, b) == if last[depth] == b then g + [last] else g
  {
  }

  lemma CountSnoc(members: seq<Bits>, last: Bits, depth: nat, p: Bits)
    requires depth <= |last| && forall i :: 0 <= i < |members| ==> depth <= |members[i]|
    ensures forall i :: 0 <= i < |members + [last]| ==> depth <= |(members + [last])[i]|
    ensures CountUnder(members + [last], depth, p) == CountUnder(members, depth, p) + (if p <= last[depth..] then 1 else 0)
  {
    assert (members + [last])[..|members|] == members;
  }

  lemma HeadAndTail(p: Bits, k: Bits, depth: nat)
    requires |p| > 0 && depth < |k|
    ensures p <= k[depth..] <==> p[0] == k[depth] && p[1..] <= k[depth + 1..]
  {
    assert k[depth..] == [k[depth]] + k[depth + 1..];
    assert p == [p[0]] + p[1..];
  }

  /** Each leaf of a surveyed region holds exactly the members that lie under it. */
  lemma {:induction false} BuildLeafCounts(cfg: Config, members: seq<Bits>, depth: nat, now: Instant, p: Bits)
    requires KeysOf(cfg, members) && depth <= cfg.keyLen && Names(BuildLeaf(cfg, members, depth, now), p)
    ensures LeafAt(BuildLeaf(cfg, members, depth, now), p) == Some(Leaf(CountUnder(members, depth, p), now))
    decreases |p|
  {
    hide BuildLeaf, LeafAt, CountUnder, Group;
    BelowBuilt(cfg, members, depth, now, p);
    if p == [] {
      CountAll(members, depth);
    } else {
      CountGroup(members, depth, p);
      BuildLeafCounts(cfg, Group(members, depth, p[0]), depth + 1, now, p[1..]);
    }
  }

  lemma BelowBuilt(cfg: Config, members: seq<Bits>, depth: nat, now: Instant, p: Bits)
    requires KeysOf(cfg, members) && depth <= cfg.keyLen && Names(BuildLeaf(cfg, members, depth, now), p)
    ensures p == [] ==> LeafAt(BuildLeaf(cfg, members, depth, now), p) == Some(Leaf(|members|, now))
    ensures p != [] ==>
      && depth < cfg.keyLen
      && LeafAt(BuildLeaf(cfg, members, depth, now), p)
         == LeafAt(BuildLeaf(cfg, Group(members, depth, p[0]), depth + 1, now), p[1..])
  {
    hide Group;
  }

  /** The subtree a path leads to, if it leads to one. */
  function Subtree(t: Trie, path: Bits): Option<Trie> {
    if |path| == 0 then Some(t) else if t.Leaf? then None else Subtree(Child(t, path[0]), path[1..])
  }

  /** Every region of the map after an applied report: one at or below the reported prefix holds exactly
      the members that lie under it; one above it took over the regions it merged, with their
      populations; any other is as it was. */
  lemma {:induction false} EveryRegionAfter(cfg: Config, t: Trie, rest: Bits, depth: nat, members: seq<Bits>, now: Instant, p: Bits)
    requires KeysOf(cfg, members) && depth <= cfg.keyLen && DepthWithin(t, cfg.keyLen - depth) && Names(t, rest)
    requires var u := ObserveNode(cfg, t, rest, depth, members, now); u.Some? && Names(u.value, p)
    ensures depth + |rest| <= cfg.keyLen
    ensures var u := ObserveNode(cfg, t, rest, depth, members, now).value;
      if rest <= p then LeafAt(u, p) == Some(Leaf(CountUnder(members, depth + |rest|, p[|rest|..]), now))
      else if p <= rest then
        && Subtree(t, p).Some?
        && LeafAt(u, p).value.population == Population(Subtree(t, p).value) - LeafAt(t, rest).value.population + |members|
      else LeafAt(u, p) == LeafAt(t, p)
    decreases t
  {
    NamesWithin(t, rest, cfg.keyLen - depth);
    var u := ObserveNode(cfg, t, rest, depth, members, now).value;
    if t.Leaf? {
      BuildLeafCounts(cfg, members, depth, now, p);
      assert p[0..] == p;
    } else {
      var child := ObserveNode(cfg, Child(t, rest[0]), rest[1..], depth + 1, members, now).value;
      hide ObserveNode, BuildLeaf, CountUnder, DepthWithin;
      if |p| == 0 {
        PopulationConserved(cfg, t, rest, depth, members, now);
      } else if p[0] == rest[0] {
        Descended(rest, p);
        EveryRegionAfter(cfg, Child(t, rest[0]), rest[1..], depth + 1, members, now, p[1..]);
      }
    }
  }

  lemma Descended(a: Bits, b: Bits)
    requires |a| > 0 && |b| > 0 && a[0] == b[0]
    ensures a <= b <==> a[1..] <= b[1..]
    ensures b <= a <==> b[1..] <= a[1..]
    ensures a <= b ==> b[|a|..] == b[1..][|a[1..]|..]
  {
    assert a == [a[0]] + a[1..] && b == [b[0]] + b[1..];
  }

  // ---------- Freshness ----------

  /** One applied observation: the prefix surveyed and when. */
  datatype Survey = Survey(prefix: Bits, now: Instant)

  /** When a key was last covered by an applied observation, zero if never. */
  ghost function LastCovered(hist: seq<Survey>, k: Bits): Instant {
    if |hist| == 0 then 0
    else if HasPrefix(k, hist[|hist| - 1].prefix) then hist[|hist| - 1].now
    else LastCovered(hist[..|hist| - 1], k)
  }

  /** v is the least, over the keys under a prefix, of the time each was last covered. */
  ghost predicate Stalest(hist: seq<Survey>, keyLen: nat, prefix: Bits, v: Instant) {
    && (forall k :: |k| == keyLen && HasPrefix(k, prefix) ==> v <= LastCovered(hist, k))
    && (exists k :: |k| == keyLen && HasPrefix(k, prefix) && v == LastCovered(hist, k))
  }

  /** Every leaf's freshness is the coverage of its stalest key. */
  ghost predicate Fresh(hist: seq<Survey>, keyLen: nat, prefix: Bits, t: Trie)
    decreases t
  {
    match t
    case Leaf(_, surveyed) => Stalest(hist, keyLen, prefix, surveyed)
    case Split(zero, one) => Fresh(hist, keyLen, prefix + [false], zero) && Fresh(hist, keyLen, prefix + [true], one)
  }

  function Padded(prefix: Bits, n: nat): (k: Bits)
    requires |prefix| <= n
    ensures |k| == n && HasPrefix(k, prefix)
  {
    prefix + seq(n - |prefix|, _ => false)
  }

  lemma {:induction false} UnsurveyedFresh(keyLen: nat, prefix: Bits, depth: nat)
    requires |prefix| + depth <= keyLen
    ensures Fresh([], keyLen, prefix, BuildTrie(depth))
    decreases depth
  {
    if depth == 0 {
      assert LastCovered([], Padded(prefix, keyLen)) == 0;
    } else {
      UnsurveyedFresh(keyLen, prefix + [false], depth - 1);
      UnsurveyedFresh(keyLen, prefix + [true], depth - 1);
    }
  }

  /** A survey elsewhere leaves a subtree's freshness as it was. */
  lemma {:induction false} FreshElsewhere(hist: seq<Survey>, keyLen: nat, prefix: Bits, t: Trie, s: Survey)
    requires Fresh(hist, keyLen, prefix, t)
    requires !(prefix <= s.prefix) && !(s.prefix <= prefix)
    ensures Fresh(hist + [s], keyLen, prefix, t)
    decreases t
  {
    match t
    case Leaf(_, surveyed) =>
      forall k | |k| == keyLen && HasPrefix(k, prefix)
        ensures LastCovered(hist + [s], k) == LastCovered(hist, k)
      {
        Comparable(k, prefix, s.prefix);
        assert (hist + [s])[..|hist|] == hist;
      }
    case Split(zero, one) =>
      Comparable(prefix + [false], prefix, s.prefix);
      Comparable(prefix + [true], prefix, s.prefix);
      Shorter(prefix, s.prefix, false);
      Shorter(prefix, s.prefix, true);
      FreshElsewhere(hist, keyLen, prefix + [false], zero, s);
      FreshElsewhere(hist, keyLen, prefix + [true], one, s);
  }

  /** Two prefixes of one key are comparable. */
  lemma Comparable(k: Bits, p: Bits, q: Bits)
    ensures p <= k && q <= k ==> p <= q || q <= p
  {
    if p <= k && q <= k {
      if |p| <= |q| {
        assert q[..|p|] == k[..|q|][..|p|] == k[..|p|] == p;
      } else {
        assert p[..|q|] == k[..|p|][..|q|] == k[..|q|] == q;
      }
    }
  }

  lemma Shorter(p: Bits, q: Bits, b: bool)
    ensures p + [b] <= q ==> p <= q
  {
    if p + [b] <= q {
      assert q[..|p|] == q[..|p| + 1][..|p|] == p;
    }
  }

  /** Every leaf was surveyed at v. */
  ghost predicate AllSurveyed(t: Trie, v: Instant) {
    match t
    case Leaf(_, surveyed) => surveyed == v
    case Split(zero, one) => AllSurveyed(zero, v) && AllSurveyed(one, v)
  }

  lemma {:induction false} BuildLeafSurveyed(cfg: Config, members: seq<Bits>, depth: nat, now: Instant)
    requires KeysOf(cfg, members)
    ensures AllSurveyed(BuildLeaf(cfg, members, depth, now), now)
    decreases cfg.keyLen - depth
  {
    if |members| > cfg.maxPopulation && depth < cfg.keyLen {
      BuildLeafSurveyed(cfg, Group(members, depth, false), depth + 1, now);
      BuildLeafSurveyed(cfg, Group(members, depth, true), depth + 1, now);
    }
  }

  /** A survey covers every key under its prefix. */
  ghost predicate CoveredAt(hist: seq<Survey>, keyLen: nat, prefix: Bits, v: Instant) {
    forall k :: |k| == keyLen && HasPrefix(k, prefix) ==> LastCovered(hist, k) == v
  }

  lemma {:induction false} CoveredFresh(hist: seq<Survey>, keyLen: nat, prefix: Bits, t: Trie, v: Instant)
    requires |prefix| <= keyLen && DepthWithin(t, keyLen - |prefix|)
    requires AllSurveyed(t, v) && CoveredAt(hist, keyLen, prefix, v)
    ensures Fresh(hist, keyLen, prefix, t)
    decreases t
  {
    match t
    case Leaf(_, _) =>
      assert LastCovered(hist, Padded(prefix, keyLen)) == v;
    case Split(zero, one) =>
      forall k, b | |k| == keyLen && HasPrefix(k, prefix + [b])
        ensures HasPrefix(k, prefix)
      {
        Shorter(prefix, k, b);
      }
      CoveredFresh(hist, keyLen, prefix + [false], zero, v);
      CoveredFresh(hist, keyLen, prefix + [true], one, v);
  }

  lemma BuildLeafFresh(cfg: Config, hist: seq<Survey>, prefix: Bits, members: seq<Bits>, now: Instant)
    requires KeysOf(cfg, members) && |prefix| <= cfg.keyLen
    ensures Fresh(hist + [Survey(prefix, now)], cfg.keyLen, prefix, BuildLeaf(cfg, members, |prefix|, now))
  {
    BuildLeafSurveyed(cfg, members, |prefix|, now);
    BuildLeafDepth(cfg, members, |prefix|, now);
    CoveredFresh(hist + [Survey(prefix, now)], cfg.keyLen, prefix, BuildLeaf(cfg, members, |prefix|, now), now);
  }

  /** The keys under a prefix are those under its two extensions. */
  lemma MergedStalest(hist: seq<Survey>, keyLen: nat, prefix: Bits, v0: Instant, v1: Instant)
    requires |prefix| < keyLen
    requires Stalest(hist, keyLen, prefix + [false], v0) && Stalest(hist, keyLen, prefix + [true], v1)
    ensures Stalest(hist, keyLen, prefix, EarlierTime(v0, v1))
  {
    forall k | |k| == keyLen && HasPrefix(k, prefix)
      ensures EarlierTime(v0, v1) <= LastCovered(hist, k)
    {
      assert k[..|prefix| + 1] == prefix + [k[|prefix|]];
      if k[|prefix|] {
        assert HasPrefix(k, prefix + [true]);
      } else {
        assert HasPrefix(k, prefix + [false]);
      }
    }
    var b := !(v0 < v1);
    var k :| |k| == keyLen && HasPrefix(k, prefix + [b]) && (if b then v1 else v0) == LastCovered(hist, k);
    assert k[..|prefix|] == (prefix + [b])[..|prefix|] == prefix;
  }

  /** After an applied observation, each leaf's freshness is still that of its stalest key. */
  lemma {:induction false} ObserveFresh(cfg: Config, t: Trie, hist: seq<Survey>, prefix: Bits, rest: Bits, members: seq<Bits>, now: Instant)
    requires KeysOf(cfg, members) && |prefix| <= cfg.keyLen && DepthWithin(t, cfg.keyLen - |prefix|)
    requires Fresh(hist, cfg.keyLen, prefix, t) && Names(t, rest)
    ensures var u := ObserveNode(cfg, t, rest, |prefix|, members, now);
      u.Some? && Fresh(hist + [Survey(prefix + rest, now)], cfg.keyLen, prefix, u.value)
    decreases t
  {
    hide Stalest, BuildLeaf, KeysOf;
    var s := Survey(prefix + rest, now);
    if t.Leaf? {
      assert prefix + rest == prefix;
      BuildLeafFresh(cfg, hist, prefix, members, now);
    } else {
      var b := rest[0];
      assert prefix + [b] + rest[1..] == prefix + rest;
      ObserveFresh(cfg, Child(t, b), hist, prefix + [b], rest[1..], members, now);
      assert (prefix + rest)[|prefix|] == b && (prefix + [!b])[|prefix|] == !b;
      FreshElsewhere(hist, cfg.keyLen, prefix + [!b], Child(t, !b), s);
      var child := ObserveNode(cfg, Child(t, b), rest[1..], |prefix| + 1, members, now).value;
      if SparseSurveyed(cfg, child) && SparseSurveyed(cfg, Child(t, !b)) {
        var (c0, c1) := if b then (Child(t, !b), child) else (child, Child(t, !b));
        MergedStalest(hist + [s], cfg.keyLen, prefix, c0.surveyed, c1.surveyed);
      }
    }
  }

  // ---------- Normal form ----------

  /** No leaf shorter than a key holds more than maxPopulation, and no two sibling leaves are both
      surveyed and at or below minPopulation. */
  ghost predicate Normal(cfg: Config, t: Trie, depth: nat)
    decreases t
  {
    match t
    case Leaf(population, _) => depth < cfg.keyLen ==> population <= cfg.maxPopulation
    case Split(zero, one) =>
      && Normal(cfg, zero, depth + 1) && Normal(cfg, one, depth + 1)
      && !(SparseSurveyed(cfg, zero) && SparseSurveyed(cfg, one))
  }

  lemma {:induction false} BuildTrieNormal(cfg: Config, d: nat, depth: nat)
    ensures Normal(cfg, BuildTrie(d), depth)
  {
    if d > 0 {
      BuildTrieNormal(cfg, d - 1, depth + 1);
    }
  }

  lemma {:induction false} BuildLeafNormal(cfg: Config, members: seq<Bits>, depth: nat, now: Instant)
    requires KeysOf(cfg, members) && 2 * cfg.minPopulation <= cfg.maxPopulation
    ensures Normal(cfg, BuildLeaf(cfg, members, depth, now), depth)
    decreases cfg.keyLen - depth
  {
    if |members| > cfg.maxPopulation && depth < cfg.keyLen {
      BuildLeafNormal(cfg, Group(members, depth, false), depth + 1, now);
      BuildLeafNormal(cfg, Group(members, depth, true), depth + 1, now);
      BuildLeafPopulation(cfg, Group(members, depth, false), depth + 1, now);
      BuildLeafPopulation(cfg, Group(members, depth, true), depth + 1, now);
      GroupsPart(members, depth);
    }
  }

  lemma {:induction false} ObserveNormal(cfg: Config, t: Trie, rest: Bits, depth: nat, members: seq<Bits>, now: Instant)
    requires KeysOf(cfg, members) && 2 * cfg.minPopulation <= cfg.maxPopulation && Normal(cfg, t, depth)
    ensures var u := ObserveNode(cfg, t, rest, depth, members, now); u.Some? ==> Normal(cfg, u.value, depth)
    decreases t
  {
    if t.Leaf? {
      BuildLeafNormal(cfg, members, depth, now);
    } else if |rest| > 0 {
      ObserveNormal(cfg, Child(t, rest[0]), rest[1..], depth + 1, members, now);
    }
  }

  // ---------- What a survey removes and adds ----------

  /** Only the surveyed region is ever split: any other region is still covered by a region whose
      prefix is its own or shorter. */
  lemma {:induction false} OnlySurveyedSplits(cfg: Config, t: Trie, rest: Bits, depth: nat, members: seq<Bits>, now: Instant, r: Bits) returns (q: Bits)
    requires KeysOf(cfg, members) && Names(t, rest) && Names(t, r) && r != rest
    ensures var u := ObserveNode(cfg, t, rest, depth, members, now); u.Some? && Names(u.value, q) && q <= r
    decreases t
  {
    AppliedIffNamed(cfg, t, rest, depth, members, now);
    if t.Leaf? {
      q := [];
    } else {
      var b := rest[0];
      var u := ObserveNode(cfg, t, rest, depth, members, now).value;
      var child := ObserveNode(cfg, Child(t, b), rest[1..], depth + 1, members, now).value;
      if u.Leaf? {
        q := [];
      } else if r[0] == b {
        assert r == [b] + r[1..] && rest == [b] + rest[1..];
        var q' := OnlySurveyedSplits(cfg, Child(t, b), rest[1..], depth + 1, members, now, r[1..]);
        q := [b] + q';
        assert q[1..] == q' && r[0..] == [b] + r[1..];
      } else {
        q := r;
        assert Child(u, !b) == Child(t, !b);
      }
    }
  }

  /** Whether recording that many members of a region splits it. */
  predicate Splits(cfg: Config, p: Bits, members: seq<Bits>) {
    |p| < cfg.keyLen && |members| > cfg.maxPopulation
  }

  lemma {:induction false} SomeName(t: Trie) returns (p: Bits)
    ensures Names(t, p)
    decreases t
  {
    p := [];
    if t.Split? {
      var q := SomeName(t.zero);
      p := [false] + q;
    }
  }

  /** A report that does not split its region leaves no region finer than those before it. */
  lemma {:induction false} NothingFiner(cfg: Config, t: Trie, rest: Bits, depth: nat, members: seq<Bits>, now: Instant, a: Bits) returns (q: Bits)
    requires KeysOf(cfg, members) && Names(t, rest)
    requires |members| <= cfg.maxPopulation || depth + |rest| >= cfg.keyLen
    requires var u := ObserveNode(cfg, t, rest, depth, members, now); u.Some? && Names(u.value, a)
    ensures Names(t, q) && a <= q
    decreases t
  {
    if t.Leaf? {
      q := [];
    } else if |a| == 0 {
      q := SomeName(t);
    } else if a[0] == rest[0] {
      q := NothingFiner(cfg, Child(t, rest[0]), rest[1..], depth + 1, members, now, a[1..]);
      q := [a[0]] + q;
      assert a == [a[0]] + a[1..];
    } else {
      q := a;
    }
  }

  /** A region that splits does not merge, nor does anything above it. */
  lemma {:induction false} SplitStands(cfg: Config, t: Trie, rest: Bits, depth: nat, members: seq<Bits>, now: Instant)
    requires KeysOf(cfg, members) && Names(t, rest)
    requires |members| > cfg.maxPopulation && depth + |rest| < cfg.keyLen
    ensures var u := ObserveNode(cfg, t, rest, depth, members, now);
      && u.Some? && u.value.Split?
      && (t.Leaf? ==> u.value == BuildLeaf(cfg, members, depth, now))
      && (t.Split? ==>
            && |rest| > 0
            && var child := ObserveNode(cfg, Child(t, rest[0]), rest[1..], depth + 1, members, now);
               child.Some? && Child(u.value, rest[0]) == child.value && Child(u.value, !rest[0]) == Child(t, !rest[0]))
    decreases t
  {
    if t.Split? {
      SplitStands(cfg, Child(t, rest[0]), rest[1..], depth + 1, members, now);
    }
  }

  /** A report that splits its region changes no other: the parts are those found for it. */
  lemma {:induction false} SplitAlone(cfg: Config, t: Trie, rest: Bits, depth: nat, members: seq<Bits>, now: Instant, a: Bits)
    requires KeysOf(cfg, members) && Names(t, rest)
    requires |members| > cfg.maxPopulation && depth + |rest| < cfg.keyLen
    ensures var u := ObserveNode(cfg, t, rest, depth, members, now);
      && u.Some?
      && (Names(u.value, a) <==>
            if rest <= a then Names(BuildLeaf(cfg, members, depth + |rest|, now), a[|rest|..]) else Names(t, a))
    decreases |rest|
  {
    hide *;
    SplitStands(cfg, t, rest, depth, members, now);
    NamesBelow(t, a);
    NamesBelow(t, rest);
    NamesBelow(ObserveNode(cfg, t, rest, depth, members, now).value, a);
    if t.Leaf? {
      assert a[0..] == a;
    } else if |a| > 0 && a[0] == rest[0] {
      Descended(rest, a);
      SplitAlone(cfg, Child(t, rest[0]), rest[1..], depth + 1, members, now, a[1..]);
    }
  }

  lemma NamesBelow(t: Trie, a: Bits)
    ensures t.Leaf? ==> (Names(t, a) <==> a == [])
    ensures t.Split? ==> (Names(t, a) <==> |a| > 0 && Names(Child(t, a[0]), a[1..]))
  {
  }

  /** Only surveyed regions merge, and what they merge into counts as surveyed. */
  lemma {:induction false} MergedWereSurveyed(cfg: Config, t: Trie, rest: Bits, depth: nat, members: seq<Bits>, now: Instant, a: Bits)
    requires KeysOf(cfg, members) && Names(t, rest) && now > 0
    ensures ObserveNode(cfg, t, rest, depth, members, now).Some?
    ensures var u := ObserveNode(cfg, t, rest, depth, members, now).value;
      && (Names(t, a) && a != rest && !Names(u, a) ==> LeafAt(t, a).value.surveyed != 0)
      && (Names(u, a) && !Names(t, a) && !(rest <= a) ==> LeafAt(u, a).value.surveyed != 0)
    decreases |rest|
  {
    AppliedIffNamed(cfg, t, rest, depth, members, now);
    NamesBelow(t, rest);
    if t.Split? && |a| > 0 && a[0] == rest[0] {
      Descended(rest, a);
      MergedWereSurveyed(cfg, Child(t, rest[0]), rest[1..], depth + 1, members, now, a[1..]);
    }
    hide BuildLeaf;
  }
}
