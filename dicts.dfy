/** A Python `dict` with string keys: a sequence of entries in insertion order.
    Assigning to an existing key replaces its value where it stands; a new key goes last. */
module Dicts {
  import opened Wrappers

  type Dict<V> = seq<(string, V)>

  function Keys<V>(d: Dict<V>): (ks: seq<string>)
    ensures |ks| == |d| && forall i :: 0 <= i < |d| ==> ks[i] == d[i].0
  {
    if d == [] then [] else [d[0].0] + Keys(d[1..])
  }

  /** The representation invariant of a dict: no key twice. */
  predicate DistinctKeys<V>(d: Dict<V>) {
    forall i, j :: 0 <= i < j < |d| ==> d[i].0 != d[j].0
  }

  lemma DistinctTail<V>(d: Dict<V>)
    requires d != [] && DistinctKeys(d)
    ensures DistinctKeys(d[1..]) && d[0].0 !in Keys(d[1..])
  {
    forall a, b | 0 <= a < b < |d[1..]| ensures d[1..][a].0 != d[1..][b].0 {
      assert d[1..][a] == d[a + 1] && d[1..][b] == d[b + 1];
    }
    forall i | 0 <= i < |d[1..]| ensures Keys(d[1..])[i] != d[0].0 {
      assert d[1..][i] == d[i + 1];
    }
  }

  /** `d.get(k)`: the value stored under `k`, `None` when `k` is absent. */
  function Get<V>(d: Dict<V>, k: string): (r: Option<V>)
    ensures r.None? <==> k !in Keys(d)
  {
    if d == [] then None
    else if d[0].0 == k then Some(d[0].1)
    else Get(d[1..], k)
  }

  /** In a dict, the value found for a key is the one stored in its entry. */
  lemma {:induction false} GetEntry<V>(d: Dict<V>, i: nat)
    requires DistinctKeys(d) && i < |d|
    ensures Get(d, d[i].0) == Some(d[i].1)
  {
    if i > 0 {
      assert d[0].0 != d[i].0;
      DistinctTail(d);
      assert d[1..][i - 1] == d[i];
      GetEntry(d[1..], i - 1);
    }
  }

  /** `d[k] = v`. */
  function Put<V>(d: Dict<V>, k: string, v: V): Dict<V>
  {
    if d == [] then [(k, v)]
    else if d[0].0 == k then [(k, v)] + d[1..]
    else [d[0]] + Put(d[1..], k, v)
  }

  /** Assignment keeps the key order; a new key is appended. */
  lemma {:induction false} PutKeys<V>(d: Dict<V>, k: string, v: V)
    ensures Keys(Put(d, k, v)) == if k in Keys(d) then Keys(d) else Keys(d) + [k]
  {
    if d != [] && d[0].0 != k {
      PutKeys(d[1..], k, v);
      assert Keys(d) == [d[0].0] + Keys(d[1..]);
      assert Keys(Put(d, k, v)) == [d[0].0] + Keys(Put(d[1..], k, v));
    }
  }

  /** Assignment keeps a dict a dict. */
  lemma PutDistinct<V>(d: Dict<V>, k: string, v: V)
    requires DistinctKeys(d)
    ensures DistinctKeys(Put(d, k, v))
  {
    var r := Put(d, k, v);
    PutKeys(d, k, v);
    var ks := Keys(r);
    assert forall i, j :: 0 <= i < j < |r| ==> ks[i] != ks[j];
  }

  /** After `d[k] = v`, `k` reads `v` and every other key reads as before. */
  lemma {:induction false} PutGet<V>(d: Dict<V>, k: string, v: V, k': string)
    ensures Get(Put(d, k, v), k') == if k' == k then Some(v) else Get(d, k')
  {
    if d != [] && d[0].0 != k {
      PutGet(d[1..], k, v, k');
    }
  }

  /** `dict(pairs)`: later pairs overwrite earlier ones with the same key. */
  function FromPairs<V>(pairs: seq<(string, V)>): Dict<V>
    decreases |pairs|
  {
    if pairs == [] then []
    else Put(FromPairs(pairs[..|pairs| - 1]), pairs[|pairs| - 1].0, pairs[|pairs| - 1].1)
  }

  /** `dict(pairs)` is a dict, whose keys are the keys of the pairs. */
  lemma {:induction false} FromPairsKeys<V>(pairs: seq<(string, V)>)
    ensures DistinctKeys(FromPairs(pairs))
    ensures forall k :: k in Keys(FromPairs(pairs)) <==> exists i :: 0 <= i < |pairs| && pairs[i].0 == k
    decreases |pairs|
  {
    if pairs != [] {
      var init := pairs[..|pairs| - 1];
      var last := pairs[|pairs| - 1];
      FromPairsKeys(init);
      PutDistinct(FromPairs(init), last.0, last.1);
      PutKeys(FromPairs(init), last.0, last.1);
      assert forall i :: 0 <= i < |init| ==> init[i] == pairs[i];
    }
  }

  /** The value of the latest pair with a key wins. */
  lemma {:induction false} FromPairsLastWins<V>(pairs: seq<(string, V)>, i: nat)
    requires i < |pairs|
    requires forall j :: i < j < |pairs| ==> pairs[j].0 != pairs[i].0
    ensures Get(FromPairs(pairs), pairs[i].0) == Some(pairs[i].1)
    decreases |pairs|
  {
    var init := pairs[..|pairs| - 1];
    var last := pairs[|pairs| - 1];
    PutGet(FromPairs(init), last.0, last.1, pairs[i].0);
    if i < |pairs| - 1 {
      assert init[i] == pairs[i];
      FromPairsLastWins(init, i);
    }
  }

  /** Sum of the values of an integer-valued dict. */
  function SumValues(d: Dict<int>): int {
    if d == [] then 0 else d[0].1 + SumValues(d[1..])
  }

  /** The value `d[k] += n` leaves under a present key `k`, or `d[k] = n` under a new one. */
  function Added(d: Dict<int>, k: string, n: int): int {
    match Get(d, k)
    case None => n
    case Some(t) => t + n
  }

  /** Adding `n` under one key adds `n` to the sum of the values. */
  lemma {:induction false} SumValuesAdd(d: Dict<int>, k: string, n: int)
    requires DistinctKeys(d)
    ensures SumValues(Put(d, k, Added(d, k, n))) == SumValues(d) + n
  {
    if d != [] && d[0].0 != k {
      DistinctTail(d);
      assert Added(d, k, n) == Added(d[1..], k, n);
      SumValuesAdd(d[1..], k, n);
    }
  }

  /** The dict `d[k] += n` (or `d[k] = n` for a new key) builds over the pairs in order:
      the sum of the amounts under each key, keys in order of first appearance. */
  function SumByKey(pairs: seq<(string, int)>): Dict<int>
    decreases |pairs|
  {
    if pairs == [] then []
    else
      var d := SumByKey(pairs[..|pairs| - 1]);
      var (k, n) := pairs[|pairs| - 1];
      Put(d, k, Added(d, k, n))
  }

  /** The sum of all amounts. */
  function TotalOf(pairs: seq<(string, int)>): int
    decreases |pairs|
  {
    if pairs == [] then 0 else TotalOf(pairs[..|pairs| - 1]) + pairs[|pairs| - 1].1
  }

  /** The sum of the amounts under one key. */
  function KeyTotal(pairs: seq<(string, int)>, k: string): int
    decreases |pairs|
  {
    if pairs == [] then 0
    else KeyTotal(pairs[..|pairs| - 1], k) + if pairs[|pairs| - 1].0 == k then pairs[|pairs| - 1].1 else 0
  }

  /** Some pair carries key `k`. */
  predicate HasKey(pairs: seq<(string, int)>, k: string) {
    exists i :: 0 <= i < |pairs| && pairs[i].0 == k
  }

  /** One more pair at the end: one more `d[k] += n`. */
  lemma SumByKeySnoc(pairs: seq<(string, int)>, p: (string, int))
    ensures SumByKey(pairs + [p]) == Put(SumByKey(pairs), p.0, Added(SumByKey(pairs), p.0, p.1))
  {
    assert (pairs + [p])[..|pairs|] == pairs;
  }

  lemma HasKeyInit(pairs: seq<(string, int)>, k: string)
    requires pairs != []
    ensures HasKey(pairs, k) <==> HasKey(pairs[..|pairs| - 1], k) || pairs[|pairs| - 1].0 == k
  {
    var init := pairs[..|pairs| - 1];
    assert forall i :: 0 <= i < |init| ==> init[i] == pairs[i];
  }

  /** A key absent from the pairs totals zero. */
  lemma {:induction false} KeyTotalAbsent(pairs: seq<(string, int)>, k: string)
    requires !HasKey(pairs, k)
    ensures KeyTotal(pairs, k) == 0
    decreases |pairs|
  {
    if pairs != [] {
      HasKeyInit(pairs, k);
      KeyTotalAbsent(pairs[..|pairs| - 1], k);
    }
  }

  /** The fold builds a dict. */
  lemma {:induction false} SumByKeyDistinct(pairs: seq<(string, int)>)
    ensures DistinctKeys(SumByKey(pairs))
    decreases |pairs|
  {
    if pairs != [] {
      var d := SumByKey(pairs[..|pairs| - 1]);
      var (k, n) := pairs[|pairs| - 1];
      SumByKeyDistinct(pairs[..|pairs| - 1]);
      PutDistinct(d, k, Added(d, k, n));
    }
  }

  /** Each key reads the sum of its amounts; a key without pairs is absent. */
  lemma {:induction false} SumByKeyGet(pairs: seq<(string, int)>, k: string)
    ensures Get(SumByKey(pairs), k) == if HasKey(pairs, k) then Some(KeyTotal(pairs, k)) else None
    decreases |pairs|
  {
    if pairs != [] {
      var init, p := pairs[..|pairs| - 1], pairs[|pairs| - 1];
      var d := SumByKey(init);
      assert SumByKey(pairs) == Put(d, p.0, Added(d, p.0, p.1));
      SumByKeyGet(init, k);
      HasKeyInit(pairs, k);
      PutGet(d, p.0, Added(d, p.0, p.1), k);
      if k == p.0 {
        if !HasKey(init, k) {
          KeyTotalAbsent(init, k);
        }
        assert Added(d, k, p.1) == KeyTotal(pairs, k);
      }
    }
  }

  /** The values of the fold add up to all the amounts. */
  lemma {:induction false} SumByKeyTotal(pairs: seq<(string, int)>)
    ensures SumValues(SumByKey(pairs)) == TotalOf(pairs)
    decreases |pairs|
  {
    if pairs != [] {
      var init := pairs[..|pairs| - 1];
      var (k, n) := pairs[|pairs| - 1];
      SumByKeyTotal(init);
      SumByKeyDistinct(init);
      SumValuesAdd(SumByKey(init), k, n);
    }
  }
}
