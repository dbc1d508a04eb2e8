/** The keys a node provides, enumerable by prefix. */
module Keystore {
  import opened Keys
  import opened Sequences
  import opened RegionTable
  import opened RegionProofs

  /** A binary trie holding at most one key at each leaf. */
  datatype KeyTrie = Empty | Item(key: Bits) | Branch(zero: KeyTrie, one: KeyTrie)

  /** Every key lies on the path of its own bits, and all keys have one length. */
  ghost predicate WellFormed(t: KeyTrie, path: Bits, keyLen: nat) {
    match t
    case Empty => true
    case Item(k) => |k| == keyLen && HasPrefix(k, path)
    case Branch(zero, one) =>
      |path| < keyLen && WellFormed(zero, path + [false], keyLen) && WellFormed(one, path + [true], keyLen)
  }

  /** The keys stored in a trie. */
  function Stored(t: KeyTrie): set<Bits> {
    match t
    case Empty => {}
    case Item(k) => {k}
    case Branch(zero, one) => Stored(zero) + Stored(one)
  }

  /** Every key of a trie, in order. */
  function Collect(t: KeyTrie): seq<Bits> {
    match t
    case Empty => []
    case Item(k) => [k]
    case Branch(zero, one) => Collect(zero) + Collect(one)
  }

  /** The keys yielded for a prefix, of which `rest` remains below this node. */
  function Under(t: KeyTrie, prefix: Bits, rest: Bits): seq<Bits> {
    if |rest| == 0 then Collect(t) else
    match t
    case Empty => []
    case Item(k) => if HasPrefix(k, prefix) then [k] else []
    case Branch(zero, one) => Under(if rest[0] then one else zero, prefix, rest[1..])
  }

  /** Yields every stored key whose leading bits equal prefix. */
  method KeysUnder(root: KeyTrie, prefix: Bits) returns (keys: seq<Bits>)
    ensures keys == Under(root, prefix, prefix)
  {
    var node, i := root, 0;
    assert prefix[0..] == prefix;
    while i < |prefix|
      invariant i <= |prefix|
      invariant Under(root, prefix, prefix) == Under(node, prefix, prefix[i..])
    {
      if !node.Branch? {
        return if node.Item? && HasPrefix(node.key, prefix) then [node.key] else [];
      }
      assert prefix[i..][1..] == prefix[i + 1..];
      node := if prefix[i] then node.one else node.zero;
      i := i + 1;
    }
    keys := Collect(node);
  }

  /** A key is yielded for a prefix exactly when it is stored and carries the prefix. */
  lemma {:induction false} UnderIsFilter(t: KeyTrie, path: Bits, rest: Bits, keyLen: nat, k: Bits)
    requires WellFormed(t, path, keyLen)
    ensures k in Under(t, path + rest, rest) <==> k in Stored(t) && HasPrefix(k, path + rest)
    decreases t
  {
    if |rest| == 0 {
      assert path + rest == path;
      CollectedExactly(t, k);
      StoredOnPath(t, path, keyLen, k);
    } else if t.Branch? {
      var b := rest[0];
      assert path + [b] + rest[1..] == path + rest;
      var (child, other) := if b then (t.one, t.zero) else (t.zero, t.one);
      UnderIsFilter(child, path + [b], rest[1..], keyLen, k);
      StoredOnPath(other, path + [!b], keyLen, k);
      assert (path + rest)[|path|] == b && (path + [!b])[|path|] == !b;
    }
  }

  lemma {:induction false} CollectedExactly(t: KeyTrie, k: Bits)
    ensures k in Collect(t) <==> k in Stored(t)
    decreases t
  {
    if t.Branch? {
      CollectedExactly(t.zero, k);
      CollectedExactly(t.one, k);
    }
  }

  lemma {:induction false} StoredOnPath(t: KeyTrie, path: Bits, keyLen: nat, k: Bits)
    requires WellFormed(t, path, keyLen)
    ensures k in Stored(t) ==> |k| == keyLen && HasPrefix(k, path)
    decreases t
  {
    if t.Branch? {
      StoredOnPath(t.zero, path + [false], keyLen, k);
      StoredOnPath(t.one, path + [true], keyLen, k);
      Shorter(path, k, false);
      Shorter(path, k, true);
    }
  }

  /** The keys yielded region by region over a subtree of the region map. */
  function OverRegions(root: KeyTrie, prefixes: seq<Bits>): seq<Bits> {
    if |prefixes| == 0 then [] else
    OverRegions(root, prefixes[..|prefixes| - 1]) + Under(root, prefixes[|prefixes| - 1], prefixes[|prefixes| - 1])
  }

  lemma {:induction false} OverRegionsConcat(root: KeyTrie, a: seq<Bits>, b: seq<Bits>)
    ensures OverRegions(root, a + b) == OverRegions(root, a) + OverRegions(root, b)
    decreases |b|
  {
    hide *;
    if |b| == 0 {
      assert a + b == a;
      OverNone(root);
    } else {
      var init, last := b[..|b| - 1], b[|b| - 1];
      assert b == init + [last] && a + b == a + init + [last];
      OverRegionsConcat(root, a, init);
      OverOneMore(root, init, last);
      OverOneMore(root, a + init, last);
    }
  }

  lemma OverNone(root: KeyTrie)
    ensures OverRegions(root, []) == []
  {
  }

  lemma OverOneMore(root: KeyTrie, prefixes: seq<Bits>, p: Bits)
    ensures OverRegions(root, prefixes + [p]) == OverRegions(root, prefixes) + Under(root, p, p)
  {
    assert (prefixes + [p])[..|prefixes|] == prefixes;
  }

  /** What lies under a prefix is what lies under its two extensions, in order. */
  lemma {:induction false} UnderSplits(t: KeyTrie, path: Bits, prefix: Bits, rest: Bits, keyLen: nat)
    requires WellFormed(t, path, keyLen) && prefix == path + rest && |prefix| < keyLen
    ensures Under(t, prefix, rest) == Under(t, prefix + [false], rest + [false]) + Under(t, prefix + [true], rest + [true])
    decreases t
  {
    if t.Item? {
      var k := t.key;
      Shorter(prefix, k, false);
      Shorter(prefix, k, true);
      if HasPrefix(k, prefix) {
        assert k[..|prefix| + 1] == prefix + [k[|prefix|]];
        if k[|prefix|] {
          assert HasPrefix(k, prefix + [true]);
          assert (prefix + [false])[|prefix|] != k[|prefix|];
        } else {
          assert HasPrefix(k, prefix + [false]);
          assert (prefix + [true])[|prefix|] != k[|prefix|];
        }
      }
    } else if t.Branch? {
      if |rest| == 0 {
        assert rest + [false] == [false] && rest + [true] == [true];
      } else {
        var b := rest[0];
        assert path + [b] + rest[1..] == prefix;
        assert (rest + [false])[1..] == rest[1..] + [false] && (rest + [true])[1..] == rest[1..] + [true];
        UnderSplits(if b then t.one else t.zero, path + [b], prefix, rest[1..], keyLen);
      }
    }
  }

  /** Publishing region by region yields every stored key exactly once: over all regions of a table,
      in order, the keys yielded are all the keys stored. */
  lemma {:induction false} EveryKeyOnce(root: KeyTrie, keyLen: nat, t: Trie, prefix: Bits)
    requires WellFormed(root, [], keyLen) && |prefix| <= keyLen && DepthWithin(t, keyLen - |prefix|)
    ensures OverRegions(root, LeafPrefixes(t, prefix)) == Under(root, prefix, prefix)
    decreases t
  {
    match t
    case Leaf(_, _) =>
      assert [prefix][..0] == [];
    case Split(zero, one) =>
      EveryKeyOnce(root, keyLen, zero, prefix + [false]);
      EveryKeyOnce(root, keyLen, one, prefix + [true]);
      OverRegionsConcat(root, LeafPrefixes(zero, prefix + [false]), LeafPrefixes(one, prefix + [true]));
      assert [] + prefix == prefix;
      UnderSplits(root, [], prefix, prefix, keyLen);
  }

  ghost predicate InOrder(keys: seq<Bits>) {
    forall i, j :: 0 <= i < j < |keys| ==> Precedes(keys[i], keys[j])
  }

  /** The keys of a trie are collected in ascending order. */
  lemma {:induction false} CollectInOrder(t: KeyTrie, path: Bits, keyLen: nat)
    requires WellFormed(t, path, keyLen)
    ensures InOrder(Collect(t))
    decreases t
  {
    if t.Branch? {
      CollectInOrder(t.zero, path + [false], keyLen);
      CollectInOrder(t.one, path + [true], keyLen);
      forall a, b | a in Collect(t.zero) && b in Collect(t.one)
        ensures Precedes(a, b)
      {
        CollectedExactly(t.zero, a);
        CollectedExactly(t.one, b);
        StoredOnPath(t.zero, path + [false], keyLen, a);
        StoredOnPath(t.one, path + [true], keyLen, b);
        assert a[..|path|] == (path + [false])[..|path|] == path && b[..|path|] == (path + [true])[..|path|] == path;
        assert a[|path|] == (path + [false])[|path|] && b[|path|] == (path + [true])[|path|];
        assert PartAt(a, b, |path|);
      }
      OrderedConcat(Collect(t.zero), Collect(t.one));
    }
  }

  lemma OrderedConcat(a: seq<Bits>, b: seq<Bits>)
    requires InOrder(a) && InOrder(b) && forall x, y :: x in a && y in b ==> Precedes(x, y)
    ensures InOrder(a + b)
  {
    hide Precedes;
    forall i, j | 0 <= i < j < |a + b| ensures Precedes((a + b)[i], (a + b)[j]) {
      if j < |a| {
        assert Precedes(a[i], a[j]);
      } else if i < |a| {
        assert a[i] in a && b[j - |a|] in b;
      } else {
        assert Precedes(b[i - |a|], b[j - |a|]);
      }
    }
  }

  lemma OrderedDistinct(keys: seq<Bits>)
    requires InOrder(keys)
    ensures Distinct(keys)
  {
    forall i, j | 0 <= i < j < |keys| ensures keys[i] != keys[j] {
      assert Precedes(keys[i], keys[j]);
    }
  }

  /** The keys yielded for a prefix are in ascending order. */
  lemma {:induction false} UnderInOrder(t: KeyTrie, path: Bits, prefix: Bits, rest: Bits, keyLen: nat)
    requires WellFormed(t, path, keyLen)
    ensures InOrder(Under(t, prefix, rest))
    decreases t
  {
    if |rest| == 0 {
      CollectInOrder(t, path, keyLen);
    } else if t.Branch? {
      UnderInOrder(if rest[0] then t.one else t.zero, path + [rest[0]], prefix, rest[1..], keyLen);
    }
  }

  /** Publishing region by region, over all regions, yields the keys that are stored, in ascending order, each once. */
  lemma AllRegionsYieldAllKeys(root: KeyTrie, keyLen: nat, t: Trie)
    requires WellFormed(root, [], keyLen) && DepthWithin(t, keyLen)
    ensures var keys := OverRegions(root, LeafPrefixes(t, []));
      && (forall k :: k in keys <==> k in Stored(root))
      && InOrder(keys) && Distinct(keys)
  {
    var keys := OverRegions(root, LeafPrefixes(t, []));
    EveryKeyOnce(root, keyLen, t, []);
    assert keys == Collect(root);
    forall k ensures k in keys <==> k in Stored(root) {
      CollectedExactly(root, k);
    }
    CollectInOrder(root, [], keyLen);
    OrderedDistinct(keys);
  }
}
