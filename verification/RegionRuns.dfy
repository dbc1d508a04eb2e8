/** The region map after any sequence of surveys, and the keys published under its regions. */
module RegionRuns {
  import opened Keys
  import opened Clock
  import opened Options
  import opened Sequences
  import opened RegionTable
  import opened RegionProofs

  /** What a survey reports to the table. */
  datatype Report = Report(prefix: Bits, members: seq<Bits>, now: Instant)

  ghost predicate ValidReports(cfg: Config, reports: seq<Report>) {
    forall i :: 0 <= i < |reports| ==> KeysOf(cfg, reports[i].members) && reports[i].now > 0
  }

  /** The trie after a sequence of reports, applied or ignored. */
  ghost function After(cfg: Config, reports: seq<Report>): Trie
    requires ValidReports(cfg, reports)
    decreases |reports|
  {
    if |reports| == 0 then BuildTrie(cfg.initialPrefixLen) else
    var r := reports[|reports| - 1];
    Observed(cfg, After(cfg, reports[..|reports| - 1]), r.prefix, r.members, r.now)
  }

  /** The reports that were applied, because their prefix named a region at the time. */
  ghost function Applied(cfg: Config, reports: seq<Report>): seq<Survey>
    requires ValidReports(cfg, reports)
    decreases |reports|
  {
    if |reports| == 0 then [] else
    var r := reports[|reports| - 1];
    Applied(cfg, reports[..|reports| - 1]) +
    (if Names(After(cfg, reports[..|reports| - 1]), r.prefix) then [Survey(r.prefix, r.now)] else [])
  }

  /** After any reports the regions tile the keyspace no finer than a key, and each region's
      freshness is the time its stalest key was last covered. */
  lemma {:induction false} TilingAndFreshness(cfg: Config, reports: seq<Report>)
    requires cfg.Valid() && ValidReports(cfg, reports)
    ensures DepthWithin(After(cfg, reports), cfg.keyLen)
    ensures Fresh(Applied(cfg, reports), cfg.keyLen, [], After(cfg, reports))
    decreases |reports|
  {
    if |reports| == 0 {
      BuildTrieDepth(cfg.initialPrefixLen, cfg.keyLen);
      UnsurveyedFresh(cfg.keyLen, [], cfg.initialPrefixLen);
    } else {
      var init, r := reports[..|reports| - 1], reports[|reports| - 1];
      var t := After(cfg, init);
      TilingAndFreshness(cfg, init);
      hide Fresh, ObserveNode, Names, DepthWithin;
      ObserveDepth(cfg, t, r.prefix, 0, r.members, r.now);
      AppliedIffNamed(cfg, t, r.prefix, 0, r.members, r.now);
      if Names(t, r.prefix) {
        ObserveFresh(cfg, t, Applied(cfg, init), [], r.prefix, r.members, r.now);
        assert [] + r.prefix == r.prefix;
        assert Applied(cfg, reports) == Applied(cfg, init) + [Survey(r.prefix, r.now)];
      } else {
        assert Applied(cfg, reports) == Applied(cfg, init) && After(cfg, reports) == t;
      }
    }
  }

  /** Locating a key after any reports: the region found is listed with that population and freshness,
      the key carries its prefix, and it carries no other region's. */
  lemma LocateFindsTheRegion(cfg: Config, reports: seq<Report>, k: Bits)
    requires cfg.Valid() && ValidReports(cfg, reports) && |k| == cfg.keyLen
    ensures DepthWithin(After(cfg, reports), |k|)
    ensures var t := After(cfg, reports);
      var leaf := LeafAt(t, LocatePrefix(t, k));
      && leaf.Some?
      && Region(LocatePrefix(t, k), leaf.value.population, leaf.value.surveyed) in Regions(t, [])
      && forall r :: r in Regions(t, []) && HasPrefix(k, r.prefix) ==>
           r == Region(LocatePrefix(t, k), leaf.value.population, leaf.value.surveyed)
  {
    TilingAndFreshness(cfg, reports);
    var t := After(cfg, reports);
    Tiling(t, k);
    var p := LocatePrefix(t, k);
    var leaf := LeafAt(t, p).value;
    RegionsAreLeaves(t, [], Region(p, leaf.population, leaf.surveyed));
    assert p[0..] == p;
    forall r | r in Regions(t, []) && HasPrefix(k, r.prefix)
      ensures r == Region(p, leaf.population, leaf.surveyed)
    {
      RegionsAreLeaves(t, [], r);
      assert r.prefix[0..] == r.prefix;
    }
  }

  // ---------- Removed and added regions ----------

  ghost predicate Covers(prefixes: seq<Bits>, k: Bits) {
    exists p :: p in prefixes && HasPrefix(k, p)
  }

  /** Between two region maps, the regions removed and the regions added cover the same keys. */
  lemma DiffCoversSameKeys(was: Trie, next: Trie, k: Bits)
    requires DepthWithin(was, |k|) && DepthWithin(next, |k|)
    ensures var a, b := LeafPrefixes(was, []), LeafPrefixes(next, []);
      Covers(Minus(a, b), k) <==> Covers(Minus(b, a), k)
  {
    var a, b := LeafPrefixes(was, []), LeafPrefixes(next, []);
    var p, q := LocatePrefix(was, k), LocatePrefix(next, k);
    Tiling(was, k);
    Tiling(next, k);
    NamesListed(was, p);
    NamesListed(next, q);
    NamesListed(next, p);
    NamesListed(was, q);
    if Covers(Minus(a, b), k) {
      var x :| x in Minus(a, b) && HasPrefix(k, x);
      NamesListed(was, x);
      assert x == p && q in Minus(b, a);
    }
    if Covers(Minus(b, a), k) {
      var x :| x in Minus(b, a) && HasPrefix(k, x);
      NamesListed(next, x);
      assert x == q && p in Minus(a, b);
    }
  }

  /** No region is listed twice. */
  lemma {:induction false} PrefixesDistinct(t: Trie, prefix: Bits)
    ensures Distinct(LeafPrefixes(t, prefix))
    ensures |LeafPrefixes(t, prefix)| > 0
    decreases t
  {
    match t
    case Leaf(_, _) =>
    case Split(zero, one) =>
      PrefixesDistinct(zero, prefix + [false]);
      PrefixesDistinct(one, prefix + [true]);
      var a, b := LeafPrefixes(zero, prefix + [false]), LeafPrefixes(one, prefix + [true]);
      forall i, j | 0 <= i < |a| && 0 <= j < |b|
        ensures a[i] != b[j]
      {
        PrefixesAreLeaves(zero, prefix + [false], a[i]);
        PrefixesAreLeaves(one, prefix + [true], b[j]);
        assert a[i][|prefix|] == (prefix + [false])[|prefix|] && b[j][|prefix|] == (prefix + [true])[|prefix|];
      }
  }

  // ---------- When the table is in normal form ----------

  /** What surveys report: distinct nodes of the region surveyed. */
  ghost predicate SurveyReports(cfg: Config, reports: seq<Report>) {
    && ValidReports(cfg, reports)
    && forall i :: 0 <= i < |reports| ==> OfRegion(reports[i].members, reports[i].prefix)
  }

  ghost predicate OfRegion(members: seq<Bits>, prefix: Bits) {
    Distinct(members) && forall k :: k in members ==> HasPrefix(k, prefix)
  }

  /** Normal form is kept under every sequence of survey reports exactly when twice the merge threshold is
      within the split threshold, or no region can hold enough keys to split. That maxPopulation exceeds
      minPopulation is not enough. */
  lemma NormalFormExactly(cfg: Config)
    requires cfg.Valid()
    ensures (forall reports :: SurveyReports(cfg, reports) ==> Normal(cfg, After(cfg, reports), 0))
      <==> 2 * cfg.minPopulation <= cfg.maxPopulation || Pow2(cfg.keyLen) <= cfg.maxPopulation
  {
    if 2 * cfg.minPopulation <= cfg.maxPopulation || Pow2(cfg.keyLen) <= cfg.maxPopulation {
      forall reports | SurveyReports(cfg, reports)
        ensures Normal(cfg, After(cfg, reports), 0)
      {
        if 2 * cfg.minPopulation <= cfg.maxPopulation {
          AlwaysNormal(cfg, reports);
        } else {
          SmallAlwaysNormal(cfg, reports, None);
        }
      }
    } else {
      var reports := AbnormalReports(cfg);
    }
  }

  lemma {:induction false} AlwaysNormal(cfg: Config, reports: seq<Report>)
    requires cfg.Valid() && ValidReports(cfg, reports) && 2 * cfg.minPopulation <= cfg.maxPopulation
    ensures Normal(cfg, After(cfg, reports), 0)
    decreases |reports|
  {
    if |reports| == 0 {
      BuildTrieNormal(cfg, cfg.initialPrefixLen, 0);
    } else {
      var init, r := reports[..|reports| - 1], reports[|reports| - 1];
      AlwaysNormal(cfg, init);
      ObserveNormal(cfg, After(cfg, init), r.prefix, 0, r.members, r.now);
    }
  }

  // ---------- A keyspace too small to split ----------

  lemma {:induction false} GroupOfRegion(members: seq<Bits>, prefix: Bits, b: bool)
    requires OfRegion(members, prefix) && forall i :: 0 <= i < |members| ==> |prefix| < |members[i]|
    ensures OfRegion(Group(members, |prefix|, b), prefix + [b])
  {
    hide *;
    if |members| == 0 {
      NoneOfRegion(|prefix|, prefix + [b], b);
    } else {
      var init, last := members[..|members| - 1], members[|members| - 1];
      FrontOfRegion(members, prefix);
      GroupOfRegion(init, prefix, b);
      GroupSnoc(members, |prefix|, b);
      if last[|prefix|] == b {
        SnocOfRegion(Group(init, |prefix|, b), last, prefix + [b]);
      }
    }
  }

  lemma NoneOfRegion(depth: nat, p: Bits, b: bool)
    ensures OfRegion(Group([], depth, b), p)
  {
  }

  lemma FrontOfRegion(members: seq<Bits>, p: Bits)
    requires |members| > 0 && OfRegion(members, p)
    ensures var init, last := members[..|members| - 1], members[|members| - 1];
      && OfRegion(init, p) && last !in init && p <= last
      && (|p| < |last| ==> p + [last[|p|]] <= last)
  {
    var last := members[|members| - 1];
    assert last in members;
    assert |p| < |last| ==> last[..|p| + 1] == p + [last[|p|]];
  }

  lemma SnocOfRegion(members: seq<Bits>, k: Bits, p: Bits)
    requires OfRegion(members, p) && k !in members && p <= k
    ensures OfRegion(members + [k], p)
  {
  }

  lemma Repeats(members: seq<Bits>, k: Bits)
    requires |members| > 1 && forall i :: 0 <= i < |members| ==> members[i] == k
    ensures !Distinct(members)
  {
    assert members[0] == members[1];
  }

  lemma OnlyKey(cfg: Config, members: seq<Bits>, prefix: Bits)
    requires KeysOf(cfg, members) && OfRegion(members, prefix) && |prefix| == cfg.keyLen
    ensures forall i :: 0 <= i < |members| ==> members[i] == prefix
  {
    forall i | 0 <= i < |members| ensures members[i] == prefix {
      assert members[i] in members;
    }
  }

  /** A region holds no more distinct keys than its width. */
  lemma {:induction false} RegionHolds(cfg: Config, members: seq<Bits>, prefix: Bits)
    requires KeysOf(cfg, members) && OfRegion(members, prefix) && |prefix| <= cfg.keyLen
    ensures |members| <= Pow2(cfg.keyLen - |prefix|)
    decreases cfg.keyLen - |prefix|
  {
    if |prefix| == cfg.keyLen {
      OnlyKey(cfg, members, prefix);
      if |members| > 1 {
        Repeats(members, prefix);
      }
    } else {
      LongerThan(cfg, members, |prefix|);
      GroupsPart(members, |prefix|);
      GroupOfRegion(members, prefix, false);
      GroupOfRegion(members, prefix, true);
      hide Group, OfRegion;
      RegionHolds(cfg, Group(members, |prefix|, false), prefix + [false]);
      RegionHolds(cfg, Group(members, |prefix|, true), prefix + [true]);
    }
  }

  lemma LongerThan(cfg: Config, members: seq<Bits>, n: nat)
    requires KeysOf(cfg, members) && n < cfg.keyLen
    ensures forall i :: 0 <= i < |members| ==> n < |members[i]|
  {
  }

  /** How many nodes a region can be found to hold: its width, less one if a key is never reported and lies in
      it. me is what remains of such a key below the region, if it lies there. */
  function Room(width: nat, me: Option<Bits>): nat {
    Pow2(width) - (if me.Some? then 1 else 0)
  }

  function Below(me: Option<Bits>, b: bool): Option<Bits> {
    if me.Some? && |me.value| > 0 && me.value[0] == b then Some(me.value[1..]) else None
  }

  function BelowPath(me: Option<Bits>, path: Bits): Option<Bits>
    decreases |path|
  {
    if |path| == 0 then me else BelowPath(Below(me, path[0]), path[1..])
  }

  /** No region of the subtree is recorded as holding more than it can be found to hold. */
  ghost predicate Narrow(t: Trie, width: nat, me: Option<Bits>)
    decreases t
  {
    match t
    case Leaf(population, _) => population <= Room(width, me)
    case Split(zero, one) => width > 0 && Narrow(zero, width - 1, Below(me, false)) && Narrow(one, width - 1, Below(me, true))
  }

  lemma {:induction false} BuildTrieNarrow(d: nat, width: nat, me: Option<Bits>)
    requires d <= width
    ensures Narrow(BuildTrie(d), width, me)
  {
    if d > 0 {
      BuildTrieNarrow(d - 1, width - 1, Below(me, false));
      BuildTrieNarrow(d - 1, width - 1, Below(me, true));
    }
  }

  /** A region has room for what its halves have room for, and no less than either. */
  lemma RoomHalves(width: nat, me: Option<Bits>)
    requires width > 0 && (me.Some? ==> |me.value| == width)
    ensures Room(width, me) == Room(width - 1, Below(me, false)) + Room(width - 1, Below(me, true))
    ensures Room(width - 1, Below(me, false)) <= Room(width, me) && Room(width - 1, Below(me, true)) <= Room(width, me)
    ensures forall b :: Below(me, b).Some? ==> |Below(me, b).value| == width - 1
  {
  }

  /** Where no region can hold enough to split, a report within its region's room keeps the normal form. */
  lemma {:induction false} ObserveNarrow(cfg: Config, t: Trie, rest: Bits, depth: nat, members: seq<Bits>, now: Instant, me: Option<Bits>)
    requires KeysOf(cfg, members) && depth <= cfg.keyLen && (me.Some? ==> |me.value| == cfg.keyLen - depth)
    requires Room(cfg.keyLen - depth, me) <= cfg.maxPopulation
    requires Normal(cfg, t, depth) && Narrow(t, cfg.keyLen - depth, me)
    requires depth + |rest| <= cfg.keyLen ==> |members| <= Room(cfg.keyLen - depth - |rest|, BelowPath(me, rest))
    ensures var u := ObserveNode(cfg, t, rest, depth, members, now);
      u.Some? ==> Normal(cfg, u.value, depth) && Narrow(u.value, cfg.keyLen - depth, me)
    decreases t
  {
    if t.Leaf? {
    } else {
      RoomHalves(cfg.keyLen - depth, me);
      hide Room;
      if |rest| > 0 {
        ObserveNarrow(cfg, Child(t, rest[0]), rest[1..], depth + 1, members, now, Below(me, rest[0]));
        hide KeysOf, BuildLeaf;
      }
    }
  }

  /** Nobody reports the key me. */
  ghost predicate NeverReported(reports: seq<Report>, me: Option<Bits>) {
    me.Some? ==> forall i :: 0 <= i < |reports| ==> me.value !in reports[i].members
  }

  lemma {:induction false} BelowPathIs(me: Bits, path: Bits)
    ensures BelowPath(Some(me), path) == if path <= me then Some(me[|path|..]) else None
  {
    if |path| > 0 {
      if |me| > 0 && me[0] == path[0] {
        BelowPathIs(me[1..], path[1..]);
        Descended(path, me);
      } else {
        BelowNone(path[1..]);
      }
    }
  }

  lemma {:induction false} BelowNone(path: Bits)
    ensures BelowPath(None, path) == None
  {
    if |path| > 0 {
      BelowNone(path[1..]);
    }
  }

  /** What is reported on a region is within its room. */
  lemma ReportFits(cfg: Config, members: seq<Bits>, prefix: Bits, me: Option<Bits>)
    requires KeysOf(cfg, members) && OfRegion(members, prefix) && |prefix| <= cfg.keyLen
    requires me.Some? ==> |me.value| == cfg.keyLen && me.value !in members
    ensures |members| <= Room(cfg.keyLen - |prefix|, BelowPath(me, prefix))
  {
    if me.None? {
      BelowNone(prefix);
      RegionHolds(cfg, members, prefix);
    } else {
      BelowPathIs(me.value, prefix);
      if prefix <= me.value {
        SnocOfRegion(members, me.value, prefix);
        RegionHolds(cfg, members + [me.value], prefix);
      } else {
        RegionHolds(cfg, members, prefix);
      }
    }
    hide OfRegion;
  }

  lemma {:induction false} SmallAlwaysNormal(cfg: Config, reports: seq<Report>, me: Option<Bits>)
    requires cfg.Valid() && SurveyReports(cfg, reports) && NeverReported(reports, me)
    requires (me.Some? ==> |me.value| == cfg.keyLen) && Room(cfg.keyLen, me) <= cfg.maxPopulation
    ensures Normal(cfg, After(cfg, reports), 0) && Narrow(After(cfg, reports), cfg.keyLen, me)
    decreases |reports|
  {
    hide *;
    if |reports| == 0 {
      FirstMap(cfg, reports);
      BuildTrieNormal(cfg, cfg.initialPrefixLen, 0);
      BuildTrieNarrow(cfg.initialPrefixLen, cfg.keyLen, me);
    } else {
      var init, r := reports[..|reports| - 1], reports[|reports| - 1];
      LastReport(cfg, reports, me);
      SmallAlwaysNormal(cfg, init, me);
      if |r.prefix| <= cfg.keyLen {
        ReportFits(cfg, r.members, r.prefix, me);
      }
      ObserveNarrow(cfg, After(cfg, init), r.prefix, 0, r.members, r.now, me);
    }
  }

  lemma FirstMap(cfg: Config, reports: seq<Report>)
    requires cfg.Valid() && SurveyReports(cfg, reports) && reports == []
    ensures After(cfg, reports) == BuildTrie(cfg.initialPrefixLen) && cfg.initialPrefixLen <= cfg.keyLen
  {
  }

  lemma LastReport(cfg: Config, reports: seq<Report>, me: Option<Bits>)
    requires SurveyReports(cfg, reports) && NeverReported(reports, me) && |reports| > 0
    ensures var init, r := reports[..|reports| - 1], reports[|reports| - 1];
      && ValidReports(cfg, init) && SurveyReports(cfg, init) && NeverReported(init, me)
      && KeysOf(cfg, r.members) && OfRegion(r.members, r.prefix) && (me.Some? ==> me.value !in r.members)
      && var u := ObserveNode(cfg, After(cfg, init), r.prefix, 0, r.members, r.now);
         After(cfg, reports) == if u.Some? then u.value else After(cfg, init)
  {
    hide OfRegion, ObserveNode, KeysOf;
  }

  // ---------- Reports that break the normal form ----------

  /** The regions no survey has reported on. */
  function Unsurveyed(t: Trie): nat {
    match t
    case Leaf(_, surveyed) => if surveyed == 0 then 1 else 0
    case Split(zero, one) => Unsurveyed(zero) + Unsurveyed(one)
  }

  lemma {:induction false} SomeUnsurveyed(t: Trie) returns (p: Bits)
    requires Unsurveyed(t) > 0
    ensures Names(t, p) && LeafAt(t, p).value.surveyed == 0
    decreases t
  {
    p := [];
    if t.Split? {
      var b := Unsurveyed(t.zero) == 0;
      var q := SomeUnsurveyed(Child(t, b));
      p := [b] + q;
    }
  }

  /** A report of nobody on a region not surveyed before, in an empty map in normal form, leaves one region
      fewer to survey, and the map empty and in normal form. */
  lemma {:induction false} EmptyReport(cfg: Config, t: Trie, rest: Bits, depth: nat, now: Instant)
    requires Normal(cfg, t, depth) && Population(t) == 0 && Names(t, rest) && LeafAt(t, rest).value.surveyed == 0 && now > 0
    ensures KeysOf(cfg, []) && ObserveNode(cfg, t, rest, depth, [], now).Some?
    ensures var u := ObserveNode(cfg, t, rest, depth, [], now).value;
      Normal(cfg, u, depth) && Population(u) == 0 && Unsurveyed(u) + 1 == Unsurveyed(t)
    decreases t
  {
    if t.Split? {
      EmptyReport(cfg, Child(t, rest[0]), rest[1..], depth + 1, now);
    }
  }

  /** An empty map in normal form, surveyed throughout, is one region. */
  lemma {:induction false} SurveyedThroughout(cfg: Config, t: Trie, depth: nat)
    requires Normal(cfg, t, depth) && Population(t) == 0 && Unsurveyed(t) == 0
    ensures t.Leaf?
    decreases t
  {
    if t.Split? {
      SurveyedThroughout(cfg, t.zero, depth + 1);
      SurveyedThroughout(cfg, t.one, depth + 1);
    }
  }

  /** Surveys that find nobody merge the map into one region. */
  lemma {:induction false} MergeAll(cfg: Config, reports: seq<Report>) returns (more: seq<Report>)
    requires cfg.Valid() && SurveyReports(cfg, reports)
    requires Normal(cfg, After(cfg, reports), 0) && Population(After(cfg, reports)) == 0
    ensures SurveyReports(cfg, more) && After(cfg, more).Leaf?
    decreases Unsurveyed(After(cfg, reports))
  {
    var t := After(cfg, reports);
    hide Normal, Population, Unsurveyed, Names, ObserveNode;
    if Unsurveyed(t) == 0 {
      SurveyedThroughout(cfg, t, 0);
      more := reports;
    } else {
      var p := SomeUnsurveyed(t);
      EmptyReport(cfg, t, p, 0, 1);
      var next := reports + [Report(p, [], 1)];
      assert next[..|reports|] == reports;
      assert OfRegion([], p);
      assert SurveyReports(cfg, next);
      more := MergeAll(cfg, next);
    }
  }

  lemma {:induction false} EmptyTrie(d: nat)
    ensures Population(BuildTrie(d)) == 0
  {
    if d > 0 {
      EmptyTrie(d - 1);
    }
  }

  /** The number i in n bits. */
  function Numeral(i: nat, n: nat): (k: Bits)
    ensures |k| == n
  {
    if n == 0 then [] else Numeral(i / 2, n - 1) + [i % 2 == 1]
  }

  lemma {:induction false} NumeralsDiffer(i: nat, j: nat, n: nat)
    requires i < Pow2(n) && j < Pow2(n) && i != j
    ensures Numeral(i, n) != Numeral(j, n)
  {
    if n > 0 && i / 2 != j / 2 {
      NumeralsDiffer(i / 2, j / 2, n - 1);
      assert Numeral(i, n)[..n - 1] == Numeral(i / 2, n - 1) && Numeral(j, n)[..n - 1] == Numeral(j / 2, n - 1);
    } else if n > 0 {
      assert Numeral(i, n)[n - 1] != Numeral(j, n)[n - 1];
    }
  }

  /** The number a key is in so many bits. */
  function NumberOf(k: Bits): (i: nat)
    ensures i < Pow2(|k|) && Numeral(i, |k|) == k
  {
    if |k| == 0 then 0 else
    var init, bit := k[..|k| - 1], k[|k| - 1];
    assert k == init + [bit];
    2 * NumberOf(init) + (if bit then 1 else 0)
  }

  /** The keys in so many bits, in order, without the one numbered z. */
  function KeyBut(i: nat, z: nat, len: nat): (k: Bits)
    ensures |k| == len
  {
    Numeral(if i < z then i else i + 1, len)
  }

  /** So many keys, all different, and none of them the one to avoid. */
  lemma SomeKeys(n: nat, len: nat, avoid: Option<Bits>) returns (keys: seq<Bits>)
    requires n <= Room(len, avoid) && (avoid.Some? ==> |avoid.value| == len)
    ensures |keys| == n && Distinct(keys)
    ensures forall i :: 0 <= i < n ==> |keys[i]| == len && Some(keys[i]) != avoid
  {
    var z := if avoid.Some? then NumberOf(avoid.value) else Pow2(len);
    keys := seq(n, i requires 0 <= i < n => KeyBut(i, z, len));
    forall i | 0 <= i < n ensures Some(keys[i]) != avoid {
      if avoid.Some? {
        NumeralsDiffer(if i < z then i else i + 1, z, len);
      }
    }
    forall i, j | 0 <= i < j < n ensures keys[i] != keys[j] {
      NumeralsDiffer(if i < z then i else i + 1, if j < z then j else j + 1, len);
    }
  }

  /** So many keys that begin with a zero bit, and so many that begin with a one, all different, and none of
      them the one to avoid. */
  lemma TwoHalves(m: nat, n: nat, len: nat, avoid: Option<Bits>) returns (members: seq<Bits>)
    requires len > 0 && (avoid.Some? ==> |avoid.value| == len)
    requires m <= Room(len - 1, Below(avoid, false)) && n <= Room(len - 1, Below(avoid, true))
    ensures |members| == m + n && OfRegion(members, [])
    ensures forall i :: 0 <= i < m + n ==> |members[i]| == len && members[i][0] == (i >= m) && Some(members[i]) != avoid
  {
    var zeros := SomeKeys(m, len - 1, Below(avoid, false));
    var ones := SomeKeys(n, len - 1, Below(avoid, true));
    members := seq(m + n, i requires 0 <= i < m + n => if i < m then [false] + zeros[i] else [true] + ones[i - m]);
    assert forall i :: 0 <= i < m + n ==> members[i][1..] == if i < m then zeros[i] else ones[i - m];
    forall i, j | 0 <= i < j < m + n ensures members[i] != members[j] {
      assert members[i][0] != members[j][0] || members[i][1..] != members[j][1..];
    }
  }

  /** More keys than one region may hold, in two halves that are both sparse. */
  lemma Overflow(cfg: Config, avoid: Option<Bits>) returns (members: seq<Bits>)
    requires cfg.Valid() && 2 * cfg.minPopulation > cfg.maxPopulation
    requires (avoid.Some? ==> |avoid.value| == cfg.keyLen) && Room(cfg.keyLen, avoid) > cfg.maxPopulation
    ensures cfg.keyLen > 0 && KeysOf(cfg, members) && OfRegion(members, []) && |members| == cfg.maxPopulation + 1
    ensures forall k :: k in members ==> Some(k) != avoid
    ensures forall i :: 0 <= i < |members| ==> 0 < |members[i]|
    ensures forall b :: |Group(members, 0, b)| <= cfg.minPopulation
  {
    var n := cfg.maxPopulation + 1;
    assert cfg.keyLen > 0 && Pow2(cfg.keyLen) == 2 * Pow2(cfg.keyLen - 1);
    var m := if Below(avoid, false).Some? then n / 2 else n - n / 2;
    HalvesFit(n, m, cfg.keyLen, avoid);
    members := TwoHalves(m, n - m, cfg.keyLen, avoid);
    hide OfRegion, Group, Pow2, Room, Below;
    GroupCopies(members, 0, m, false);
    GroupCopies(members, 0, m, true);
  }

  lemma HalvesFit(n: nat, m: nat, len: nat, avoid: Option<Bits>)
    requires len > 0 && n <= Room(len, avoid) && (avoid.Some? ==> |avoid.value| == len)
    requires m == if Below(avoid, false).Some? then n / 2 else n - n / 2
    ensures m <= n && m <= Room(len - 1, Below(avoid, false)) && n - m <= Room(len - 1, Below(avoid, true))
  {
  }

  /** Members in two halves that are both sparse, too many for one region, split into two that should merge. */
  lemma SparseHalves(cfg: Config, members: seq<Bits>, now: Instant)
    requires cfg.Valid() && KeysOf(cfg, members) && cfg.keyLen > 0 && |members| > cfg.maxPopulation && now > 0
    requires forall i :: 0 <= i < |members| ==> 0 < |members[i]|
    requires forall b :: |Group(members, 0, b)| <= cfg.minPopulation
    ensures !Normal(cfg, BuildLeaf(cfg, members, 0, now), 0)
  {
    var a, b := Group(members, 0, false), Group(members, 0, true);
    hide Group;
    assert BuildLeaf(cfg, a, 1, now) == Leaf(|a|, now);
    assert BuildLeaf(cfg, b, 1, now) == Leaf(|b|, now);
  }

  /** How members part into halves does not depend on their order. */
  lemma GroupsInAnyOrder(a: seq<Bits>, b: seq<Bits>, x: bool)
    requires OfRegion(a, []) && OfRegion(b, []) && forall k :: k in a <==> k in b
    requires (forall i :: 0 <= i < |a| ==> 0 < |a[i]|) && forall i :: 0 <= i < |b| ==> 0 < |b[i]|
    ensures |Group(a, 0, x)| == |Group(b, 0, x)|
  {
    GroupOfRegion(a, [], x);
    GroupOfRegion(b, [], x);
    forall k ensures k in Group(a, 0, x) <==> k in Group(b, 0, x) {
      GroupMembers(a, 0, x, k);
      GroupMembers(b, 0, x, k);
    }
    hide Group;
    SameLength(Group(a, 0, x), Group(b, 0, x));
  }

  lemma {:induction false} GroupMembers(members: seq<Bits>, depth: nat, b: bool, k: Bits)
    requires forall i :: 0 <= i < |members| ==> depth < |members[i]|
    ensures k in Group(members, depth, b) <==> k in members && k[depth] == b
  {
    if |members| > 0 {
      GroupMembers(members[..|members| - 1], depth, b, k);
      GroupSnoc(members, depth, b);
      assert k in members <==> k in members[..|members| - 1] || k == members[|members| - 1];
    }
  }

  /** Survey reports after which the table is not in normal form: the map merges into one region, and then
      one more node is found than that may hold, in two halves that are both sparse. */
  lemma AbnormalReports(cfg: Config) returns (reports: seq<Report>)
    requires cfg.Valid() && 2 * cfg.minPopulation > cfg.maxPopulation && Pow2(cfg.keyLen) > cfg.maxPopulation
    ensures SurveyReports(cfg, reports) && !Normal(cfg, After(cfg, reports), 0)
  {
    hide *;
    BuildTrieNormal(cfg, cfg.initialPrefixLen, 0);
    EmptyTrie(cfg.initialPrefixLen);
    NoReports(cfg);
    var merged := MergeAll(cfg, []);
    RoomOfAll(cfg.keyLen);
    var members := Overflow(cfg, None);
    SparseHalves(cfg, members, 1);
    reports := merged + [Report([], members, 1)];
    OneMore(cfg, merged, Report([], members, 1));
  }

  lemma NoReports(cfg: Config)
    ensures SurveyReports(cfg, []) && After(cfg, []) == BuildTrie(cfg.initialPrefixLen)
  {
  }

  lemma RoomOfAll(width: nat)
    ensures Room(width, None) == Pow2(width)
  {
  }

  lemma OneMore(cfg: Config, reports: seq<Report>, r: Report)
    requires SurveyReports(cfg, reports) && After(cfg, reports).Leaf? && r.prefix == [] && r.now > 0
    requires KeysOf(cfg, r.members) && OfRegion(r.members, [])
    ensures SurveyReports(cfg, reports + [r])
    ensures After(cfg, reports + [r]) == BuildLeaf(cfg, r.members, 0, r.now)
  {
    assert (reports + [r])[..|reports|] == reports;
    hide OfRegion, BuildLeaf, KeysOf;
  }

  lemma {:induction false} GroupCopies(members: seq<Bits>, depth: nat, m: nat, b: bool)
    requires m <= |members| && forall i :: 0 <= i < |members| ==> depth < |members[i]| && members[i][depth] == (i >= m)
    ensures |Group(members, depth, b)| == if b then |members| - m else m
  {
    if |members| > 0 {
      var init := members[..|members| - 1];
      if m < |members| {
        GroupCopies(init, depth, m, b);
      } else {
        GroupCopies(init, depth, m - 1, b);
      }
    }
  }
}
