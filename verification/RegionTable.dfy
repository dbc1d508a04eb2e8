/** The region map: a binary trie whose leaves tile the keyspace, and what surveying a region does to it. */
module RegionTable {
  import opened Keys
  import opened Clock
  import opened Options

  /** A leaf is a region with the population its last survey found and when that was, zero if never. */
  datatype Trie = Leaf(population: nat, surveyed: Instant) | Split(zero: Trie, one: Trie)

  datatype Region = Region(prefix: Bits, population: nat, surveyed: Instant)

  datatype Config = Config(initialPrefixLen: nat, minPopulation: nat, maxPopulation: nat, keyLen: nat)
  {
    predicate Valid() {
      maxPopulation > minPopulation && initialPrefixLen <= keyLen
    }
  }

  function Child(t: Trie, b: bool): Trie
    requires t.Split?
  {
    if b then t.one else t.zero
  }

  function Join(b: bool, child: Trie, other: Trie): Trie {
    if b then Split(other, child) else Split(child, other)
  }

  /** A full trie of the given depth, every leaf an unsurveyed region. */
  function BuildTrie(depth: nat): Trie {
    if depth == 0 then Leaf(0, 0) else Split(BuildTrie(depth - 1), BuildTrie(depth - 1))
  }

  /** Every region below a prefix, in order. */
  function Regions(t: Trie, prefix: Bits): seq<Region> {
    match t
    case Leaf(population, surveyed) => [Region(prefix, population, surveyed)]
    case Split(zero, one) => Regions(zero, prefix + [false]) + Regions(one, prefix + [true])
  }

  /** The members whose bit at the given depth is b, in the order they were found. */
  function Group(members: seq<Bits>, depth: nat, b: bool): (r: seq<Bits>)
    requires forall i :: 0 <= i < |members| ==> depth < |members[i]|
    ensures |r| <= |members|
    ensures forall k :: k in r ==> k in members
  {
    if |members| == 0 then [] else
    var last := members[|members| - 1];
    Group(members[..|members| - 1], depth, b) + (if last[depth] == b then [last] else [])
  }

  ghost predicate KeysOf(cfg: Config, members: seq<Bits>) {
    forall k :: k in members ==> |k| == cfg.keyLen
  }

  /** The subtree of a surveyed region: one leaf, or, when it holds more than maxPopulation members,
      the members parted by successive bits until every leaf is within the threshold. */
  function BuildLeaf(cfg: Config, members: seq<Bits>, depth: nat, now: Instant): Trie
    requires KeysOf(cfg, members)
    decreases cfg.keyLen - depth
  {
    if |members| <= cfg.maxPopulation || depth >= cfg.keyLen then Leaf(|members|, now)
    else Split(BuildLeaf(cfg, Group(members, depth, false), depth + 1, now),
               BuildLeaf(cfg, Group(members, depth, true), depth + 1, now))
  }

  predicate SparseSurveyed(cfg: Config, t: Trie) {
    t.Leaf? && t.surveyed != 0 && t.population <= cfg.minPopulation
  }

  function EarlierTime(a: Instant, b: Instant): Instant {
    if a < b then a else b
  }

  /** The subtree after one of its children has been replaced: two sparse surveyed siblings merge. */
  function Rejoin(cfg: Config, b: bool, child: Trie, other: Trie): Trie {
    if SparseSurveyed(cfg, child) && SparseSurveyed(cfg, other) then
      Leaf(child.population + other.population, EarlierTime(child.surveyed, other.surveyed))
    else Join(b, child, other)
  }

  /** The subtree with an observation applied, or none when the prefix no longer names a region.
      `rest` is what remains of the observed prefix below this subtree. */
  function ObserveNode(cfg: Config, t: Trie, rest: Bits, depth: nat, members: seq<Bits>, now: Instant): Option<Trie>
    requires KeysOf(cfg, members)
    decreases t
  {
    match t
    case Leaf(_, _) => if |rest| != 0 then None else Some(BuildLeaf(cfg, members, depth, now))
    case Split(_, _) =>
      if |rest| == 0 then None else
      var b := rest[0];
      match ObserveNode(cfg, Child(t, b), rest[1..], depth + 1, members, now)
      case None => None
      case Some(child) => Some(Rejoin(cfg, b, child, Child(t, !b)))
  }

  /** The trie after a survey reports the members it found under a prefix. */
  function Observed(cfg: Config, t: Trie, prefix: Bits, members: seq<Bits>, now: Instant): Trie
    requires KeysOf(cfg, members)
  {
    match ObserveNode(cfg, t, prefix, 0, members, now)
    case None => t
    case Some(u) => u
  }

  // ---------- Leaves and keys ----------

  predicate DepthWithin(t: Trie, n: nat) {
    t.Leaf? || (n > 0 && DepthWithin(t.zero, n - 1) && DepthWithin(t.one, n - 1))
  }

  /** The leaf a path leads to, if the path ends exactly at one. */
  function LeafAt(t: Trie, path: Bits): (r: Option<Trie>)
    ensures r.Some? ==> r.value.Leaf?
  {
    if |path| == 0 then (if t.Leaf? then Some(t) else None)
    else if t.Leaf? then None
    else LeafAt(Child(t, path[0]), path[1..])
  }

  /** Whether a prefix names a region. */
  predicate Names(t: Trie, path: Bits) {
    LeafAt(t, path).Some?
  }

  /** The prefix of the region a key falls in. */
  function LocatePrefix(t: Trie, k: Bits): (p: Bits)
    requires DepthWithin(t, |k|)
    ensures HasPrefix(k, p)
    decreases t
  {
    if t.Leaf? then [] else
      var p := LocatePrefix(Child(t, k[0]), k[1..]);
      assert k == [k[0]] + k[1..];
      [k[0]] + p
  }

  function Population(t: Trie): nat {
    match t
    case Leaf(population, _) => population
    case Split(zero, one) => Population(zero) + Population(one)
  }

  /** The prefix of every leaf below a prefix, in order. */
  function LeafPrefixes(t: Trie, prefix: Bits): seq<Bits> {
    match t
    case Leaf(_, _) => [prefix]
    case Split(zero, one) => LeafPrefixes(zero, prefix + [false]) + LeafPrefixes(one, prefix + [true])
  }

  /** The prefixes of a that are not in b, in order. */
  function Minus(a: seq<Bits>, b: seq<Bits>): (r: seq<Bits>)
    ensures forall p :: p in r <==> p in a && p !in b
  {
    if |a| == 0 then [] else
    var last := a[|a| - 1];
    Minus(a[..|a| - 1], b) + (if last in b then [] else [last])
  }
}
