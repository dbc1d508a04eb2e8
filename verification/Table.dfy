/** The region map as an object: lookups walk down the trie, an observation swaps in a new root. */
module Table {
  import opened Keys
  import opened Clock
  import opened Options
  import opened RegionTable
  import opened RegionProofs

  class Table {
    const cfg: Config
    var root: Trie

    ghost predicate Valid()
      reads this
    {
      cfg.Valid() && DepthWithin(root, cfg.keyLen)
    }

    constructor (cfg: Config)
      requires cfg.Valid()
      ensures this.cfg == cfg && Valid() && root == BuildTrie(cfg.initialPrefixLen)
    {
      this.cfg := cfg;
      root := BuildTrie(cfg.initialPrefixLen);
      BuildTrieDepth(cfg.initialPrefixLen, cfg.keyLen);
    }

    /** The region a key falls in. */
    method Locate(k: Bits) returns (r: Region)
      requires Valid() && |k| == cfg.keyLen
      ensures r.prefix == LocatePrefix(root, k)
      ensures LeafAt(root, r.prefix) == Some(Leaf(r.population, r.surveyed))
    {
      var n, prefix, depth := root, [], 0;
      assert k[0..] == k;
      Tiling(root, k);
      hide LocatePrefix, LeafAt, DepthWithin, Child;
      while n.Split?
        invariant depth <= |k| && DepthWithin(n, |k[depth..]|) && prefix == k[..depth]
        invariant |LocatePrefix(root, k)| == depth + |LocatePrefix(n, k[depth..])|
        invariant LeafAt(root, LocatePrefix(root, k)) == LeafAt(n, LocatePrefix(n, k[depth..]))
        decreases n
      {
        LocateDown(n, k[depth..]);
        var b := k[depth];
        assert k[depth..][1..] == k[depth + 1..];
        n := Child(n, b);
        prefix := prefix + [b];
        depth := depth + 1;
      }
      LocateEnds(n, k[depth..]);
      r := Region(prefix, n.population, n.surveyed);
    }

    /** Records what a survey found and tells which regions that removed and added. */
    method Observe(prefix: Bits, members: seq<Bits>, now: Instant) returns (removed: seq<Bits>, added: seq<Bits>)
      requires Valid() && KeysOf(cfg, members)
      modifies this
      ensures Valid() && root == Observed(cfg, old(root), prefix, members, now)
      ensures removed == Minus(LeafPrefixes(old(root), []), LeafPrefixes(root, []))
      ensures added == Minus(LeafPrefixes(root, []), LeafPrefixes(old(root), []))
    {
      ObserveDepth(cfg, root, prefix, 0, members, now);
      var next := ObserveNode(cfg, root, prefix, 0, members, now);
      if next.None? {
        MinusSelf(LeafPrefixes(root, []));
        return [], [];
      }
      var was := root;
      root := next.value;
      removed, added := DiffPrefixes(LeafPrefixes(was, []), LeafPrefixes(root, []));
    }
  }

  lemma LocateDown(n: Trie, k: Bits)
    requires n.Split? && DepthWithin(n, |k|)
    ensures |k| > 0 && DepthWithin(Child(n, k[0]), |k[1..]|)
    ensures |LocatePrefix(n, k)| == 1 + |LocatePrefix(Child(n, k[0]), k[1..])|
    ensures LeafAt(n, LocatePrefix(n, k)) == LeafAt(Child(n, k[0]), LocatePrefix(Child(n, k[0]), k[1..]))
  {
    var below := LocatePrefix(Child(n, k[0]), k[1..]);
    assert ([k[0]] + below)[1..] == below;
  }

  lemma LocateEnds(n: Trie, k: Bits)
    requires n.Leaf? && DepthWithin(n, |k|)
    ensures LocatePrefix(n, k) == [] && LeafAt(n, []) == Some(n)
  {
  }

  /** The prefixes in one list but not the other, both ways. */
  method DiffPrefixes(was: seq<Bits>, next: seq<Bits>) returns (removed: seq<Bits>, added: seq<Bits>)
    ensures removed == Minus(was, next) && added == Minus(next, was)
  {
    var wasSet := SetOf(was);
    var nextSet := SetOf(next);
    removed := Without(was, nextSet, next);
    added := Without(next, wasSet, was);
  }

  method SetOf(s: seq<Bits>) returns (r: set<Bits>)
    ensures forall p :: p in r <==> p in s
  {
    r := {};
    for i := 0 to |s|
      invariant forall p :: p in r <==> p in s[..i]
    {
      assert s[..i + 1] == s[..i] + [s[i]];
      r := r + {s[i]};
    }
    assert s[..|s|] == s;
  }

  method Without(s: seq<Bits>, gone: set<Bits>, ghost other: seq<Bits>) returns (r: seq<Bits>)
    requires forall p :: p in gone <==> p in other
    ensures r == Minus(s, other)
  {
    r := [];
    for i := 0 to |s|
      invariant r == Minus(s[..i], other)
    {
      assert s[..i + 1][..i] == s[..i];
      if s[i] !in gone {
        r := r + [s[i]];
      }
    }
    assert s[..|s|] == s;
  }

  lemma {:induction false} MinusSelf(s: seq<Bits>)
    ensures Minus(s, s) == []
  {
    if |Minus(s, s)| > 0 {
      assert Minus(s, s)[0] in Minus(s, s);
    }
  }
}
