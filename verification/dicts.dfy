/** Python dictionaries as association lists that keep insertion order, and the
    counting accumulator built on them. */
module Dicts {
  import opened Wrappers
  import opened Seqs

  /** A Python dict: its key/value pairs in insertion order. */
  type Dict<K, V> = seq<(K, V)>

  function Keys<K, V>(d: Dict<K, V>): (ks: seq<K>)
    ensures |ks| == |d|
    ensures forall i {:trigger ks[i]} :: 0 <= i < |d| ==> ks[i] == d[i].0
  {
    if d == [] then [] else [d[0].0] + Keys(d[1..])
  }

  /** No key is stored twice, as in every real dict. */
  predicate WellFormed<K(==), V>(d: Dict<K, V>) {
    Distinct(Keys(d))
  }

  /** `d.get(k)`. */
  function Get<K(==), V>(d: Dict<K, V>, k: K): (r: Option<V>)
    ensures r.None? <==> k !in Keys(d)
    ensures r.Some? ==> (k, r.value) in d
  {
    if d == [] then None
    else if d[0].0 == k then Some(d[0].1)
    else Get(d[1..], k)
  }

  /** The value of a counter, 0 for a key never seen. */
  function CountOf<K(==)>(d: Dict<K, nat>, k: K): nat {
    Get(d, k).GetOr(0)
  }

  /** `d[k] = v`: the value is replaced in place when `k` is present, and the
      pair is appended otherwise. */
  function Put<K(==,!new), V>(d: Dict<K, V>, k: K, v: V): (r: Dict<K, V>)
    ensures Get(r, k) == Some(v)
    ensures forall x :: x != k ==> Get(r, x) == Get(d, x)
  {
    if d == [] then [(k, v)]
    else if d[0].0 == k then [(k, v)] + d[1..]
    else
      var r := [d[0]] + Put(d[1..], k, v);
      assert r[1..] == Put(d[1..], k, v);
      r
  }

  /** `Put` adds `k` to the keys, keeps every other key, and never stores a key twice. */
  lemma {:induction false} PutKeys<K(!new), V>(d: Dict<K, V>, k: K, v: V)
    ensures forall x :: x in Keys(Put(d, k, v)) <==> x in Keys(d) || x == k
    ensures WellFormed(d) ==> WellFormed(Put(d, k, v))
  {
    var r := Put(d, k, v);
    if d == [] {
    } else if d[0].0 == k {
      assert r[1..] == d[1..];
      DistinctCons(k, Keys(d[1..]));
    } else {
      PutKeys(d[1..], k, v);
      assert r[1..] == Put(d[1..], k, v);
      DistinctCons(d[0].0, Keys(d[1..]));
      DistinctCons(d[0].0, Keys(r[1..]));
    }
  }

  /** A stored pair of a well-formed dict is exactly a key together with the
      value `Get` finds for it. */
  lemma {:induction false} ItemsOfWellFormed<K, V>(d: Dict<K, V>, p: (K, V))
    requires WellFormed(d)
    ensures p in d <==> p.0 in Keys(d) && Get(d, p.0) == Some(p.1)
  {
    if d != [] {
      DistinctCons(d[0].0, Keys(d[1..]));
      ItemsOfWellFormed(d[1..], p);
      if p in d && p != d[0] {
        assert p in d[1..];
      }
    }
  }

  /** Sum of all the values of a counter dict. */
  function Total<K>(d: Dict<K, nat>): nat {
    if d == [] then 0 else d[0].1 + Total(d[1..])
  }

  lemma {:induction false} TotalPut<K(!new)>(d: Dict<K, nat>, k: K, v: nat)
    ensures Total(Put(d, k, v)) + CountOf(d, k) == Total(d) + v
  {
    if d != [] && d[0].0 != k {
      TotalPut(d[1..], k, v);
      assert Put(d, k, v)[1..] == Put(d[1..], k, v);
    }
  }

  /** The accumulator step: `groups[key] = 1` when the key is new, otherwise
      `groups[key] += 1`. */
  function Increase<K(==,!new)>(d: Dict<K, nat>, k: K): (r: Dict<K, nat>)
    ensures CountOf(r, k) == CountOf(d, k) + 1
    ensures forall x :: x != k ==> CountOf(r, x) == CountOf(d, x)
    ensures forall x :: x in Keys(r) <==> x in Keys(d) || x == k
    ensures WellFormed(d) ==> WellFormed(r)
    ensures Total(r) == Total(d) + 1
  {
    var v := if k !in Keys(d) then 1 else Get(d, k).value + 1;
    assert v == CountOf(d, k) + 1;
    TotalPut(d, k, v);
    PutKeys(d, k, v);
    Put(d, k, v)
  }

  /** The counter dict of a sequence, filled one item at a time from the front. */
  function Tally<K(==,!new)>(s: seq<K>): (d: Dict<K, nat>)
    ensures WellFormed(d)
    ensures forall x :: x in Keys(d) <==> x in s
    ensures forall x :: CountOf(d, x) == Count(s, x)
    ensures Total(d) == |s|
  {
    if s == [] then []
    else
      var init := s[..|s| - 1];
      assert s == init + [s[|s| - 1]];
      Increase(Tally(init), s[|s| - 1])
  }

  /** The stored pairs of `Tally(s)` are exactly the values of `s`, each with
      its number of occurrences, and there is one pair per distinct value. */
  lemma TallyItems<K(!new)>(s: seq<K>)
    ensures forall p :: p in Tally(s) <==> p.0 in s && p.1 == Count(s, p.0)
    ensures |Tally(s)| == |Elems(s)|
  {
    var d := Tally(s);
    forall p
      ensures p in d <==> p.0 in s && p.1 == Count(s, p.0)
    {
      ItemsOfWellFormed(d, p);
    }
    DistinctCard(Keys(d));
    assert Elems(Keys(d)) == Elems(s);
  }
}
