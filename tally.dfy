/**
 * Insertion-ordered dictionaries: a Python dict or a JavaScript object with
 * string keys, as a sequence of (key, value) entries with distinct keys, in the
 * order the keys were first inserted. A counter is such a dictionary from keys
 * to counts, updated by `d[k] = d.get(k, 0) + 1`.
 */
module Tally {
  import opened Wrappers

  type Dict<K, V> = seq<(K, V)>

  /** The keys, in insertion order (`Object.keys`, `dict.keys()`). */
  function Keys<K, V>(d: Dict<K, V>): (ks: seq<K>)
    ensures |ks| == |d|
    ensures forall i :: 0 <= i < |d| ==> ks[i] == d[i].0
  {
    seq(|d|, i requires 0 <= i < |d| => d[i].0)
  }

  /** No key occurs twice. */
  predicate DistinctKeys<K(==), V>(d: Dict<K, V>) {
    forall i, j :: 0 <= i < j < |d| ==> d[i].0 != d[j].0
  }

  /** The value stored under `k`, if any. */
  function Lookup<K(==), V>(d: Dict<K, V>, k: K): (r: Option<V>)
    ensures r.None? <==> k !in Keys(d)
  {
    if d == [] then None
    else if d[0].0 == k then Some(d[0].1)
    else Lookup(d[1..], k)
  }

  /** In a dictionary with distinct keys, the i-th key looks up the i-th value. */
  lemma {:induction false} LookupAt<K, V>(d: Dict<K, V>, i: nat)
    requires DistinctKeys(d) && i < |d|
    ensures Lookup(d, d[i].0) == Some(d[i].1)
  {
    if i > 0 {
      assert d[0].0 != d[i].0;
      LookupAt(d[1..], i - 1);
    }
  }

  /** `d.get(k, 0)` on a counter. */
  function Get<K(==)>(c: Dict<K, nat>, k: K): nat {
    Lookup(c, k).GetOr(0)
  }

  /** `c[k] = c.get(k, 0) + 1`: bumps an existing key in place, appends a new key with count 1. */
  function Bump<K(==)>(c: Dict<K, nat>, k: K): Dict<K, nat> {
    if c == [] then [(k, 1)]
    else if c[0].0 == k then [(k, c[0].1 + 1)] + c[1..]
    else [c[0]] + Bump(c[1..], k)
  }

  /** Bumping keeps the order of the keys, appending a key seen for the first time. */
  lemma {:induction false} BumpKeys<K>(c: Dict<K, nat>, k: K)
    ensures Keys(Bump(c, k)) == if k in Keys(c) then Keys(c) else Keys(c) + [k]
  {
    if c != [] && c[0].0 != k {
      BumpKeys(c[1..], k);
      assert Keys(c) == [c[0].0] + Keys(c[1..]);
      assert Keys(Bump(c, k)) == [c[0].0] + Keys(Bump(c[1..], k));
    }
  }

  /** The sum of all counts. */
  function Total<K>(c: Dict<K, nat>): nat {
    if c == [] then 0 else c[0].1 + Total(c[1..])
  }

  /** The counter after bumping the first `n` keys of `ks` in turn, starting empty. */
  function CountFirst<K(==)>(ks: seq<K>, n: nat): Dict<K, nat>
    requires n <= |ks|
  {
    if n == 0 then [] else Bump(CountFirst(ks, n - 1), ks[n - 1])
  }

  /** The counter of all of `ks`. */
  function Count<K(==)>(ks: seq<K>): Dict<K, nat> {
    CountFirst(ks, |ks|)
  }

  /** Bumping adds one to the bumped key's count and leaves every other count alone. */
  lemma {:induction false} BumpGet<K>(c: Dict<K, nat>, k: K, k': K)
    ensures Get(Bump(c, k), k') == Get(c, k') + (if k == k' then 1 else 0)
  {
    if c != [] && c[0].0 != k {
      BumpGet(c[1..], k, k');
    }
  }

  /** Bumping adds exactly one to the total. */
  lemma {:induction false} BumpTotal<K>(c: Dict<K, nat>, k: K)
    ensures Total(Bump(c, k)) == Total(c) + 1
  {
    if c != [] && c[0].0 != k {
      BumpTotal(c[1..], k);
    }
  }

  /** Bumping keeps the keys distinct. */
  lemma BumpDistinct<K>(c: Dict<K, nat>, k: K)
    requires DistinctKeys(c)
    ensures DistinctKeys(Bump(c, k))
  {
    var r := Bump(c, k);
    var ks, rs := Keys(c), Keys(r);
    BumpKeys(c, k);
    forall i, j | 0 <= i < j < |r| ensures r[i].0 != r[j].0 {
      assert rs[i] == r[i].0 && rs[j] == r[j].0;
      if k !in ks && j == |c| {
        assert rs[i] == ks[i];
      } else {
        assert rs[i] == ks[i] && rs[j] == ks[j];
      }
    }
  }

  /** A counter counts: each key's count is its number of occurrences among the keys counted. */
  lemma {:induction false} CountGet<K>(ks: seq<K>, n: nat, k: K)
    requires n <= |ks|
    ensures Get(CountFirst(ks, n), k) == multiset(ks[..n])[k]
  {
    if n > 0 {
      CountGet(ks, n - 1, k);
      BumpGet(CountFirst(ks, n - 1), ks[n - 1], k);
      assert multiset(ks[..n]) == multiset(ks[..n - 1]) + multiset{ks[n - 1]} by {
        assert ks[..n] == ks[..n - 1] + [ks[n - 1]];
      }
    }
  }

  /** The counts add up to the number of keys counted. */
  lemma {:induction false} CountTotal<K>(ks: seq<K>, n: nat)
    requires n <= |ks|
    ensures Total(CountFirst(ks, n)) == n
  {
    if n > 0 {
      CountTotal(ks, n - 1);
      BumpTotal(CountFirst(ks, n - 1), ks[n - 1]);
    }
  }

  /** A counter has distinct keys, and exactly the keys that were counted. */
  lemma {:induction false} CountKeys<K>(ks: seq<K>, n: nat)
    requires n <= |ks|
    ensures DistinctKeys(CountFirst(ks, n))
    ensures forall k :: k in Keys(CountFirst(ks, n)) <==> k in ks[..n]
  {
    if n > 0 {
      var c, k := CountFirst(ks, n - 1), ks[n - 1];
      CountKeys(ks, n - 1);
      BumpDistinct(c, k);
      BumpKeys(c, k);
      assert ks[..n] == ks[..n - 1] + [k];
      forall k' ensures k' in Keys(Bump(c, k)) <==> k' in ks[..n] {
        assert k' in ks[..n] <==> k' in ks[..n - 1] || k' == k;
      }
    }
  }

  /** Sum of a sequence of numbers. */
  function Sum(s: seq<int>): int {
    if s == [] then 0 else s[0] + Sum(s[1..])
  }

  /** Sum of the values of a dictionary with numeric values. */
  function SumValues<K>(d: Dict<K, int>): int {
    if d == [] then 0 else d[0].1 + SumValues(d[1..])
  }
}
