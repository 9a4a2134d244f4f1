/** The two sorts the modelled code relies on: `sorted(d.items())` (ascending
    by key) and a stable sort by count, descending, as done by
    `list.sort(key=..., reverse=True)`. */
module Sorting {
  import opened Seqs
  import opened Dicts

  predicate StrictlyAscending<V>(s: seq<(int, V)>) {
    forall i, j :: 0 <= i < j < |s| ==> s[i].0 < s[j].0
  }

  predicate NonIncreasing<K>(s: seq<(K, nat)>) {
    forall i, j :: 0 <= i < j < |s| ==> s[i].1 >= s[j].1
  }

  /** The items of `s` whose count is `c`, in their order in `s`. */
  function WithCount<K>(s: seq<(K, nat)>, c: nat): seq<(K, nat)> {
    if s == [] then []
    else (if s[0].1 == c then [s[0]] else []) + WithCount(s[1..], c)
  }

  lemma MultisetCons<T>(s: seq<T>)
    requires s != []
    ensures multiset(s) == multiset{s[0]} + multiset(s[1..])
  {
    assert s == [s[0]] + s[1..];
  }

  function InsertByKey<V>(x: (int, V), s: seq<(int, V)>): seq<(int, V)> {
    if s == [] || x.0 < s[0].0 then [x] + s
    else [s[0]] + InsertByKey(x, s[1..])
  }

  predicate KeysAbove<V>(s: seq<(int, V)>, b: int) {
    forall i :: 0 <= i < |s| ==> b < s[i].0
  }

  lemma {:induction false} InsertByKeyAbove<V>(x: (int, V), s: seq<(int, V)>, b: int)
    requires KeysAbove(s, b) && b < x.0
    ensures KeysAbove(InsertByKey(x, s), b)
  {
    if !(s == [] || x.0 < s[0].0) {
      InsertByKeyAbove(x, s[1..], b);
    }
  }

  /** Prepending a key below all others keeps a sequence strictly ascending. */
  lemma AscendingCons<V>(x: (int, V), s: seq<(int, V)>)
    requires StrictlyAscending(s) && KeysAbove(s, x.0)
    ensures StrictlyAscending([x] + s)
  {
    var r := [x] + s;
    forall i, j | 0 <= i < j < |r|
      ensures r[i].0 < r[j].0
    {
      assert r[j] == s[j - 1];
      if i > 0 {
        assert r[i] == s[i - 1];
      }
    }
  }

  lemma {:induction false} InsertByKeyMultiset<V>(x: (int, V), s: seq<(int, V)>)
    ensures multiset(InsertByKey(x, s)) == multiset(s) + multiset{x}
  {
    if s != [] && x.0 >= s[0].0 {
      InsertByKeyMultiset(x, s[1..]);
      MultisetCons(s);
    }
  }

  lemma {:induction false} InsertByKeyKeys<V>(x: (int, V), s: seq<(int, V)>)
    ensures forall k :: k in Keys(InsertByKey(x, s)) <==> k in Keys(s) || k == x.0
  {
    if s != [] && x.0 >= s[0].0 {
      InsertByKeyKeys(x, s[1..]);
    }
  }

  lemma {:induction false} InsertByKeySorted<V>(x: (int, V), s: seq<(int, V)>)
    requires StrictlyAscending(s)
    requires x.0 !in Keys(s)
    ensures StrictlyAscending(InsertByKey(x, s))
  {
    if s == [] {
    } else if x.0 < s[0].0 {
      assert KeysAbove(s, x.0) by {
        forall i | 0 <= i < |s|
          ensures x.0 < s[i].0
        {
          if i > 0 {
            assert s[0].0 < s[i].0;
          }
        }
      }
      AscendingCons(x, s);
    } else {
      var rest := InsertByKey(x, s[1..]);
      assert InsertByKey(x, s) == [s[0]] + rest;
      assert StrictlyAscending(s[1..]);
      assert x.0 != s[0].0;
      InsertByKeySorted(x, s[1..]);
      assert KeysAbove(s[1..], s[0].0) by {
        forall i | 0 <= i < |s[1..]|
          ensures s[0].0 < s[1..][i].0
        {
          assert s[1..][i] == s[i + 1];
        }
      }
      InsertByKeyAbove(x, s[1..], s[0].0);
      AscendingCons(s[0], rest);
    }
  }

  lemma {:induction false} InsertByKeyTotal(x: (int, nat), s: seq<(int, nat)>)
    ensures Total(InsertByKey(x, s)) == x.1 + Total(s)
  {
    if s != [] && x.0 >= s[0].0 {
      InsertByKeyTotal(x, s[1..]);
      assert InsertByKey(x, s)[1..] == InsertByKey(x, s[1..]);
    }
  }

  /** `sorted(d.items())`: the items of a dict ordered by key. */
  function SortItems<V>(d: Dict<int, V>): seq<(int, V)> {
    if d == [] then []
    else InsertByKey(d[0], SortItems(d[1..]))
  }

  /** The sorted items are a permutation of the dict's items, strictly
      ascending by key. */
  lemma {:induction false} SortItemsFacts<V>(d: Dict<int, V>)
    requires WellFormed(d)
    ensures StrictlyAscending(SortItems(d))
    ensures multiset(SortItems(d)) == multiset(d)
    ensures forall k :: k in Keys(SortItems(d)) <==> k in Keys(d)
  {
    if d != [] {
      DistinctCons(d[0].0, Keys(d[1..]));
      SortItemsFacts(d[1..]);
      InsertByKeyMultiset(d[0], SortItems(d[1..]));
      InsertByKeyKeys(d[0], SortItems(d[1..]));
      InsertByKeySorted(d[0], SortItems(d[1..]));
      MultisetCons(d);
    }
  }

  /** Sorting the items of a counter keeps the sum of its counts. */
  lemma {:induction false} SortItemsTotal(d: Dict<int, nat>)
    requires WellFormed(d)
    ensures Total(SortItems(d)) == Total(d)
  {
    if d != [] {
      DistinctCons(d[0].0, Keys(d[1..]));
      SortItemsTotal(d[1..]);
      InsertByKeyTotal(d[0], SortItems(d[1..]));
    }
  }

  function InsertByCount<K>(x: (K, nat), s: seq<(K, nat)>): seq<(K, nat)> {
    if s == [] || x.1 >= s[0].1 then [x] + s
    else [s[0]] + InsertByCount(x, s[1..])
  }

  predicate CountsAtMost<K>(s: seq<(K, nat)>, b: nat) {
    forall i :: 0 <= i < |s| ==> s[i].1 <= b
  }

  lemma {:induction false} InsertByCountAtMost<K>(x: (K, nat), s: seq<(K, nat)>, b: nat)
    requires CountsAtMost(s, b) && x.1 <= b
    ensures CountsAtMost(InsertByCount(x, s), b)
  {
    if !(s == [] || x.1 >= s[0].1) {
      InsertByCountAtMost(x, s[1..], b);
    }
  }

  lemma NonIncreasingCons<K>(x: (K, nat), s: seq<(K, nat)>)
    requires NonIncreasing(s) && CountsAtMost(s, x.1)
    ensures NonIncreasing([x] + s)
  {
    var r := [x] + s;
    forall i, j | 0 <= i < j < |r|
      ensures r[i].1 >= r[j].1
    {
      assert r[j] == s[j - 1];
      if i > 0 {
        assert r[i] == s[i - 1];
      }
    }
  }

  lemma {:induction false} InsertByCountMultiset<K>(x: (K, nat), s: seq<(K, nat)>)
    ensures multiset(InsertByCount(x, s)) == multiset(s) + multiset{x}
  {
    if s != [] && x.1 < s[0].1 {
      InsertByCountMultiset(x, s[1..]);
      MultisetCons(s);
    }
  }

  lemma {:induction false} InsertByCountSorted<K>(x: (K, nat), s: seq<(K, nat)>)
    requires NonIncreasing(s)
    ensures NonIncreasing(InsertByCount(x, s))
  {
    if s == [] {
    } else if x.1 >= s[0].1 {
      assert CountsAtMost(s, x.1) by {
        forall i | 0 <= i < |s|
          ensures s[i].1 <= x.1
        {
          if i > 0 {
            assert s[i].1 <= s[0].1;
          }
        }
      }
      NonIncreasingCons(x, s);
    } else {
      var rest := InsertByCount(x, s[1..]);
      assert InsertByCount(x, s) == [s[0]] + rest;
      assert NonIncreasing(s[1..]);
      InsertByCountSorted(x, s[1..]);
      assert CountsAtMost(s[1..], s[0].1) by {
        forall i | 0 <= i < |s[1..]|
          ensures s[1..][i].1 <= s[0].1
        {
          assert s[1..][i] == s[i + 1];
        }
      }
      InsertByCountAtMost(x, s[1..], s[0].1);
      NonIncreasingCons(s[0], rest);
    }
  }

  /** Insertion puts `x` in front of every item of equal count, which is what
      keeps the sort stable. */
  lemma {:induction false} InsertByCountStable<K>(x: (K, nat), s: seq<(K, nat)>, c: nat)
    requires NonIncreasing(s)
    ensures WithCount(InsertByCount(x, s), c) == (if x.1 == c then [x] else []) + WithCount(s, c)
  {
    var r := InsertByCount(x, s);
    if s == [] || x.1 >= s[0].1 {
      assert r[1..] == s;
    } else {
      assert r[1..] == InsertByCount(x, s[1..]);
      assert NonIncreasing(s[1..]);
      InsertByCountStable(x, s[1..], c);
    }
  }

  lemma {:induction false} InsertByCountKeys<K>(x: (K, nat), s: seq<(K, nat)>)
    ensures forall k :: k in Keys(InsertByCount(x, s)) <==> k in Keys(s) || k == x.0
    ensures WellFormed(s) && x.0 !in Keys(s) ==> WellFormed(InsertByCount(x, s))
  {
    if s == [] || x.1 >= s[0].1 {
      DistinctCons(x.0, Keys(s));
    } else {
      var rest := InsertByCount(x, s[1..]);
      assert InsertByCount(x, s) == [s[0]] + rest;
      InsertByCountKeys(x, s[1..]);
      DistinctCons(s[0].0, Keys(s[1..]));
      DistinctCons(s[0].0, Keys(rest));
    }
  }

  /** A stable sort by count, descending: items with equal counts keep their
      relative order. */
  function SortByCountDesc<K>(s: seq<(K, nat)>): seq<(K, nat)> {
    if s == [] then []
    else InsertByCount(s[0], SortByCountDesc(s[1..]))
  }

  /** The sort is a permutation, descending by count, and stable: the items of
      each count appear in the same order as in the input. */
  lemma {:induction false} SortByCountDescFacts<K>(s: seq<(K, nat)>)
    ensures NonIncreasing(SortByCountDesc(s))
    ensures multiset(SortByCountDesc(s)) == multiset(s)
    ensures forall c :: WithCount(SortByCountDesc(s), c) == WithCount(s, c)
    ensures forall k :: k in Keys(SortByCountDesc(s)) <==> k in Keys(s)
    ensures WellFormed(s) ==> WellFormed(SortByCountDesc(s))
  {
    if s != [] {
      SortByCountDescFacts(s[1..]);
      InsertByCountKeys(s[0], SortByCountDesc(s[1..]));
      DistinctCons(s[0].0, Keys(s[1..]));
      InsertByCountMultiset(s[0], SortByCountDesc(s[1..]));
      InsertByCountSorted(s[0], SortByCountDesc(s[1..]));
      forall c
        ensures WithCount(SortByCountDesc(s), c) == WithCount(s, c)
      {
        InsertByCountStable(s[0], SortByCountDesc(s[1..]), c);
      }
      MultisetCons(s);
    }
  }
}
