/** Keys of the Kademlia keyspace: bit strings, their XOR distance and the regions named by prefixes.

    A key is a sequence of bits, most significant first. The lemma that matters for the lookup is
    `PrefixIsBall`: the keys of a region are exactly the keys closer to any of its members than the
    region's width, so in ascending XOR order a region's keys precede all other keys. */
module Keys {
  type Bits = seq<bool>

  function Pow2(n: nat): (p: nat)
    ensures p > 0
  {
    if n == 0 then 1 else 2 * Pow2(n - 1)
  }

  /** The XOR distance between two keys of one length, read as a binary number. */
  function Distance(a: Bits, b: Bits): (d: nat)
    requires |a| == |b|
    ensures d < Pow2(|a|)
  {
    if |a| == 0 then 0
    else (if a[0] == b[0] then 0 else Pow2(|a| - 1)) + Distance(a[1..], b[1..])
  }

  /** The number of leading bits two keys share. */
  function CommonPrefixLength(a: Bits, b: Bits): (n: nat)
    requires |a| == |b|
    ensures n <= |a|
    ensures a[..n] == b[..n]
    ensures n < |a| ==> a[n] != b[n]
  {
    if |a| == 0 || a[0] != b[0] then 0 else
      var n := 1 + CommonPrefixLength(a[1..], b[1..]);
      assert a[..n] == [a[0]] + a[1..][..n - 1];
      assert b[..n] == [b[0]] + b[1..][..n - 1];
      n
  }

  /** Whether p names a region that holds k. */
  predicate HasPrefix(k: Bits, p: Bits) {
    p <= k
  }

  /** A distance identifies a key: distinct keys never tie in the order a lookup walks. */
  lemma {:induction false} DistanceInjective(t: Bits, a: Bits, b: Bits)
    requires |a| == |b| == |t|
    requires Distance(a, t) == Distance(b, t)
    ensures a == b
  {
    if |t| > 0 {
      DistanceInjective(t[1..], a[1..], b[1..]);
      assert a == [a[0]] + a[1..] && b == [b[0]] + b[1..];
    }
  }

  /** Sharing at least p leading bits with t is being within distance 2^(L-p) of t. */
  lemma {:induction false} PrefixIsBall(t: Bits, k: Bits, p: nat)
    requires |k| == |t| && p <= |t|
    ensures CommonPrefixLength(k, t) >= p <==> Distance(k, t) < Pow2(|t| - p)
  {
    if p > 0 {
      PrefixIsBall(t[1..], k[1..], p - 1);
      if k[0] != t[0] {
        PowMonotone(|t| - p, |t| - 1);
      }
    }
  }

  lemma {:induction false} PowMonotone(m: nat, n: nat)
    requires m <= n
    ensures Pow2(m) <= Pow2(n)
  {
    if m < n {
      PowMonotone(m, n - 1);
    }
  }

  /** Every key inside the region of t's first p bits is strictly closer to t than every key outside. */
  lemma RegionPrecedesRest(t: Bits, p: nat, inside: Bits, outside: Bits)
    requires |inside| == |t| == |outside| && p <= |t|
    requires CommonPrefixLength(inside, t) >= p > CommonPrefixLength(outside, t)
    ensures Distance(inside, t) < Distance(outside, t)
  {
    PrefixIsBall(t, inside, p);
    PrefixIsBall(t, outside, p);
  }

  /** The common prefix length of two keys reaches |p| exactly when both lie in a region named p. */
  lemma SharedPrefixIsRegion(t: Bits, k: Bits, p: Bits)
    requires |k| == |t| && HasPrefix(t, p)
    ensures CommonPrefixLength(k, t) >= |p| <==> HasPrefix(k, p)
  {
    var n := CommonPrefixLength(k, t);
    if n >= |p| {
      assert k[..|p|] == k[..n][..|p|] && t[..|p|] == t[..n][..|p|];
    } else {
      assert t[n] == p[n];
    }
  }

  /** a comes before b: they part at a bit that a has clear. */
  ghost predicate Precedes(a: Bits, b: Bits) {
    exists n :: PartAt(a, b, n)
  }

  predicate PartAt(a: Bits, b: Bits, n: nat) {
    n < |a| && n < |b| && a[..n] == b[..n] && !a[n] && b[n]
  }
}

/** Instants. Zero stands for the source's zero time, "no time set"; every real instant is positive. */
module Clock {
  type Instant = nat

  /** The earlier of two due times, where zero means that none is scheduled. */
  function Earlier(a: Instant, b: Instant): (e: Instant)
    ensures e == 0 <==> a == 0 && b == 0
    ensures e == a || e == b
    ensures a != 0 ==> e <= a
    ensures b != 0 ==> e <= b
  {
    if a == 0 then b else if b == 0 then a else if b < a then b else a
  }
}

module Options {
  datatype Option<T> = None | Some(value: T)
}

module Sequences {
  ghost predicate Distinct<T>(s: seq<T>) {
    forall i, j :: 0 <= i < j < |s| ==> s[i] != s[j]
  }

  /** A sequence without repetition is as long as the set of its elements is large. */
  lemma {:induction false} DistinctCount<T>(s: seq<T>, r: set<T>)
    requires Distinct(s) && forall k :: k in r <==> k in s
    ensures |r| == |s|
  {
    if |s| > 0 {
      var last := s[|s| - 1];
      assert forall k :: k in s[..|s| - 1] <==> k in s && k != last;
      DistinctCount(s[..|s| - 1], r - {last});
    } else {
      assert r == {};
    }
  }

  /** Two sequences without repetition that have the same elements have the same length. */
  lemma SameLength<T>(a: seq<T>, b: seq<T>)
    requires Distinct(a) && Distinct(b) && forall k :: k in a <==> k in b
    ensures |a| == |b|
  {
    var r := set k | k in a;
    DistinctCount(a, r);
    DistinctCount(b, r);
  }
}
