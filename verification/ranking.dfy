/** pandas `value_counts()` and `value_counts().head(k)`, and the tie-agnostic
    contract a top-k ranking meets. */
module Ranking {
  import opened Seqs
  import opened Dicts
  import opened Sorting

  /** `value_counts()`: one entry per distinct value with its number of
      occurrences, most frequent first. pandas leaves the order of equal
      counts open; this model keeps them in order of first occurrence, which
      is one of the orders pandas may produce, and nothing stated about the
      ranking depends on that choice. */
  function ValueCounts<K(==,!new)>(s: seq<K>): seq<(K, nat)> {
    SortByCountDesc(Tally(s))
  }

  /** `value_counts().head(k)`. */
  function TopK<K(==,!new)>(s: seq<K>, k: int): seq<(K, nat)> {
    Head(ValueCounts(s), k)
  }

  /** Every entry names a value of `s` together with its exact number of
      occurrences. */
  ghost predicate ExactCounts<K>(r: seq<(K, nat)>, s: seq<K>) {
    forall i :: 0 <= i < |r| ==> r[i].0 in s && r[i].1 == Count(s, r[i].0)
  }

  /** What any admissible top-`k` result satisfies, whatever the tie order:
      as many entries as `head(k)` keeps of the distinct values, each value at
      most once with its exact count, counts non-increasing, and no value left
      out that occurs more often than one that was kept. */
  ghost predicate IsTopK<K>(r: seq<(K, nat)>, s: seq<K>, k: int) {
    && |r| == HeadLength(|Elems(s)|, k)
    && Distinct(Keys(r))
    && ExactCounts(r, s)
    && NonIncreasing(r)
    && (forall x, i :: x in s && x !in Keys(r) && 0 <= i < |r| ==> Count(s, x) <= r[i].1)
  }

  /** The full ranking lists every distinct value once, with its exact count,
      in non-increasing count order. */
  lemma ValueCountsFacts<K(!new)>(s: seq<K>)
    ensures |ValueCounts(s)| == |Elems(s)|
    ensures Distinct(Keys(ValueCounts(s)))
    ensures ExactCounts(ValueCounts(s), s)
    ensures NonIncreasing(ValueCounts(s))
    ensures forall x :: x in s <==> x in Keys(ValueCounts(s))
  {
    var t := Tally(s);
    var r := ValueCounts(s);
    SortByCountDescFacts(t);
    TallyItems(s);
    assert |r| == |t| by {
      assert |multiset(r)| == |multiset(t)|;
    }
    forall i | 0 <= i < |r|
      ensures r[i].0 in s && r[i].1 == Count(s, r[i].0)
    {
      assert r[i] in multiset(r);
      assert r[i] in t;
    }
  }

  /** The first entry of `value_counts()` (its `index[0]`) exists exactly
      when the column is non-empty, and is a most frequent value. */
  lemma ValueCountsMode<K(!new)>(s: seq<K>)
    ensures ValueCounts(s) == [] <==> s == []
    ensures ValueCounts(s) != [] ==> ValueCounts(s)[0].0 in s
    ensures ValueCounts(s) != [] ==> forall x :: x in s ==> Count(s, x) <= Count(s, ValueCounts(s)[0].0)
  {
    var r := ValueCounts(s);
    ValueCountsFacts(s);
    ElemsCard(s);
    if r != [] {
      forall x | x in s
        ensures Count(s, x) <= Count(s, r[0].0)
      {
        var j :| 0 <= j < |r| && Keys(r)[j] == x;
        assert r[j].1 <= r[0].1;
      }
    }
  }

  /** A value missing from a prefix of a ranking ranks at or after the prefix's end. */
  lemma MissingFromPrefix<K>(full: seq<(K, nat)>, n: nat, x: K) returns (j: nat)
    requires n <= |full|
    requires x in Keys(full) && x !in Keys(full[..n])
    ensures n <= j < |full| && full[j].0 == x
  {
    j :| 0 <= j < |full| && Keys(full)[j] == x;
    assert forall i :: 0 <= i < n ==> Keys(full[..n])[i] == full[i].0;
  }

  lemma PrefixDistinctKeys<K>(full: seq<(K, nat)>, n: nat)
    requires n <= |full| && Distinct(Keys(full))
    ensures Distinct(Keys(full[..n]))
  {
    forall i, j | 0 <= i < j < n
      ensures Keys(full[..n])[i] != Keys(full[..n])[j]
    {
      assert Keys(full)[i] != Keys(full)[j];
    }
  }

  lemma PrefixExactCounts<K>(full: seq<(K, nat)>, s: seq<K>, n: nat)
    requires n <= |full| && ExactCounts(full, s)
    ensures ExactCounts(full[..n], s)
  {
  }

  lemma PrefixNonIncreasing<K>(full: seq<(K, nat)>, n: nat)
    requires n <= |full| && NonIncreasing(full)
    ensures NonIncreasing(full[..n])
  {
  }

  /** A value left out of a prefix of a ranking occurs no more often than any value kept. */
  lemma OmittedRankLower<K>(full: seq<(K, nat)>, s: seq<K>, n: nat)
    requires n <= |full|
    requires ExactCounts(full, s) && NonIncreasing(full)
    requires forall x :: x in s ==> x in Keys(full)
    ensures forall x, i :: x in s && x !in Keys(full[..n]) && 0 <= i < n ==> Count(s, x) <= full[..n][i].1
  {
    forall x, i | x in s && x !in Keys(full[..n]) && 0 <= i < n
      ensures Count(s, x) <= full[..n][i].1
    {
      var j := MissingFromPrefix(full, n, x);
      assert full[i].1 >= full[j].1;
    }
  }

  /** `value_counts().head(k)` meets the top-k contract. */
  lemma TopKIsTopK<K(!new)>(s: seq<K>, k: int)
    ensures IsTopK(TopK(s, k), s, k)
  {
    var full := ValueCounts(s);
    var n := HeadLength(|full|, k);
    ValueCountsFacts(s);
    PrefixDistinctKeys(full, n);
    PrefixExactCounts(full, s, n);
    PrefixNonIncreasing(full, n);
    OmittedRankLower(full, s, n);
  }

  function MapSeq<A, B>(f: A -> B, s: seq<A>): (r: seq<B>)
    ensures |r| == |s|
    ensures forall i :: 0 <= i < |s| ==> r[i] == f(s[i])
  {
    seq(|s|, i requires 0 <= i < |s| => f(s[i]))
  }

  /** `g` undoes `f` on the values of `s`, so `f` loses nothing there. */
  ghost predicate LeftInverseOn<A, B>(f: A -> B, g: B -> A, s: seq<A>) {
    forall x :: x in s ==> g(f(x)) == x
  }

  lemma {:induction false} CountMapped<A, B>(f: A -> B, g: B -> A, s: seq<A>, x: A)
    requires LeftInverseOn(f, g, s)
    requires g(f(x)) == x
    ensures Count(MapSeq(f, s), f(x)) == Count(s, x)
  {
    if s != [] {
      var h := s[0];
      var t := s[1..];
      assert s == [h] + t;
      forall y | y in t
        ensures g(f(y)) == y
      {
        assert y in s;
      }
      CountMapped(f, g, t, x);
      var m := MapSeq(f, t);
      assert MapSeq(f, s) == [f(h)] + m;
      CountConcat([f(h)], m, f(x));
      CountConcat([h], t, x);
      assert g(f(h)) == h;
      assert f(h) == f(x) <==> h == x;
    }
  }

  lemma {:induction false} ElemsMappedCard<A, B>(f: A -> B, g: B -> A, s: seq<A>)
    requires LeftInverseOn(f, g, s)
    ensures |Elems(MapSeq(f, s))| == |Elems(s)|
  {
    if s != [] {
      assert LeftInverseOn(f, g, s[1..]);
      ElemsMappedCard(f, g, s[1..]);
      var m := MapSeq(f, s);
      assert m == [f(s[0])] + MapSeq(f, s[1..]);
      assert Elems(m) == {f(s[0])} + Elems(MapSeq(f, s[1..]));
      assert Elems(s) == {s[0]} + Elems(s[1..]);
      assert f(s[0]) in Elems(MapSeq(f, s[1..])) <==> s[0] in Elems(s[1..]);
    }
  }

  /** Relabels every ranked key through `g`. */
  function Relabel<A, B>(g: B -> A, r: seq<(B, nat)>): (r': seq<(A, nat)>)
    ensures |r'| == |r|
    ensures forall i :: 0 <= i < |r| ==> r'[i] == (g(r[i].0), r[i].1)
  {
    seq(|r|, i requires 0 <= i < |r| => (g(r[i].0), r[i].1))
  }

  lemma RelabelDistinct<A, B>(f: A -> B, g: B -> A, s: seq<A>, r: seq<(B, nat)>)
    requires LeftInverseOn(f, g, s)
    requires Distinct(Keys(r)) && ExactCounts(r, MapSeq(f, s))
    ensures Distinct(Keys(Relabel(g, r)))
  {
    var r' := Relabel(g, r);
    forall i, j | 0 <= i < j < |r|
      ensures Keys(r')[i] != Keys(r')[j]
    {
      var m := MapSeq(f, s);
      assert r[i].0 in m && r[j].0 in m;
      var a :| 0 <= a < |s| && m[a] == r[i].0;
      var b :| 0 <= b < |s| && m[b] == r[j].0;
      assert Keys(r)[i] != Keys(r)[j];
      assert g(f(s[a])) == s[a] && g(f(s[b])) == s[b];
    }
  }

  lemma RelabelExact<A, B>(f: A -> B, g: B -> A, s: seq<A>, r: seq<(B, nat)>)
    requires LeftInverseOn(f, g, s)
    requires ExactCounts(r, MapSeq(f, s))
    ensures ExactCounts(Relabel(g, r), s)
    ensures forall i :: 0 <= i < |r| ==> f(g(r[i].0)) == r[i].0
  {
    var m := MapSeq(f, s);
    forall i | 0 <= i < |r|
      ensures g(r[i].0) in s && Relabel(g, r)[i].1 == Count(s, g(r[i].0)) && f(g(r[i].0)) == r[i].0
    {
      assert r[i].0 in m;
      var a :| 0 <= a < |s| && m[a] == r[i].0;
      assert g(r[i].0) == s[a];
      CountMapped(f, g, s, s[a]);
    }
  }

  lemma RelabelOmitted<A, B>(f: A -> B, g: B -> A, s: seq<A>, r: seq<(B, nat)>)
    requires LeftInverseOn(f, g, s)
    requires forall y, i :: y in MapSeq(f, s) && y !in Keys(r) && 0 <= i < |r| ==> Count(MapSeq(f, s), y) <= r[i].1
    ensures forall x, i :: x in s && x !in Keys(Relabel(g, r)) && 0 <= i < |r| ==> Count(s, x) <= Relabel(g, r)[i].1
  {
    var m := MapSeq(f, s);
    var r' := Relabel(g, r);
    forall x, i | x in s && x !in Keys(r') && 0 <= i < |r|
      ensures Count(s, x) <= r'[i].1
    {
      var a :| 0 <= a < |s| && s[a] == x;
      assert m[a] == f(x);
      forall j | 0 <= j < |r|
        ensures Keys(r)[j] != f(x)
      {
        assert Keys(r')[j] == g(Keys(r)[j]);
        assert Keys(r')[j] != x;
      }
      CountMapped(f, g, s, x);
    }
  }

  /** A top-k ranking of the images `f(x)` turns back into a top-k ranking of
      the values themselves once every key is mapped back through `g`. */
  lemma TopKTransport<A, B>(f: A -> B, g: B -> A, s: seq<A>, r: seq<(B, nat)>, k: int)
    requires LeftInverseOn(f, g, s)
    requires IsTopK(r, MapSeq(f, s), k)
    ensures IsTopK(Relabel(g, r), s, k)
  {
    ElemsMappedCard(f, g, s);
    RelabelDistinct(f, g, s, r);
    RelabelExact(f, g, s, r);
    RelabelOmitted(f, g, s, r);
  }
}
