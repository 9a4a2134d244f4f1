/** The edge-building half of `gen_top_k_graph` in wrapy/core.py: plays in
    time order, restricted to the top-k songs, and every two consecutive
    remaining plays counted as one transition. */
module Graph {
  import opened Seqs
  import opened Dicts
  import opened Ranking
  import opened Records
  import opened SongKey
  import opened Songs

  /** The graph's node label: track and artist on two lines. */
  function GraphKey(s: Song): string {
    s.track + "\n" + s.artist
  }

  function Time(p: Play): int {
    p.endTime.instant
  }

  predicate SortedByTime(s: seq<Play>) {
    forall i, j :: 0 <= i < j < |s| ==> Time(s[i]) <= Time(s[j])
  }

  /** Puts `x` in front of the first play that is not earlier. */
  function InsertByTime(x: Play, s: seq<Play>): seq<Play> {
    if s == [] || Time(x) <= Time(s[0]) then [x] + s
    else [s[0]] + InsertByTime(x, s[1..])
  }

  lemma InsertByTimeMultiset(x: Play, s: seq<Play>)
    ensures multiset(InsertByTime(x, s)) == multiset([x] + s)
  {
    if s != [] && Time(x) > Time(s[0]) {
      InsertByTimeMultiset(x, s[1..]);
      assert s == [s[0]] + s[1..];
    }
  }

  lemma InsertByTimeSorted(x: Play, s: seq<Play>)
    requires SortedByTime(s)
    ensures SortedByTime(InsertByTime(x, s))
  {
    if s != [] && Time(x) > Time(s[0]) {
      InsertByTimeSorted(x, s[1..]);
      InsertByTimeMultiset(x, s[1..]);
      var r := InsertByTime(x, s[1..]);
      forall j | 0 <= j < |r|
        ensures Time(s[0]) <= Time(r[j])
      {
        assert r[j] in multiset([x] + s[1..]);
      }
    }
  }

  /** `sort_values("endTime")`. pandas' default sort is not stable, so plays
      that end at the same instant may come out in any order; this model
      picks one such order, and everything stated below is stated against
      the order it returns. */
  function SortByTime(s: seq<Play>): (r: seq<Play>)
    ensures SortedByTime(r)
    ensures multiset(r) == multiset(s)
  {
    if s == [] then []
    else
      var rest := SortByTime(s[1..]);
      InsertByTimeSorted(s[0], rest);
      InsertByTimeMultiset(s[0], rest);
      assert s == [s[0]] + s[1..];
      InsertByTime(s[0], rest)
  }

  /** The node label of every play, in order. */
  function GraphKeys(rows: seq<Play>): seq<string> {
    MapSeq(GraphKey, SongsOf(rows))
  }

  /** `data[data[song_id].isin(top_k)]`: the plays of the selected songs, in order. */
  function KeepIn(s: seq<string>, top: set<string>): (r: seq<string>)
    ensures forall x :: x in r <==> x in s && x in top
  {
    if s == [] then []
    else
      (if s[0] in top then [s[0]] else []) + KeepIn(s[1..], top)
  }

  /** Each play paired with the next one, built from the back. */
  function Pairs(f: seq<string>): (p: seq<(string, string)>)
    ensures |p| == if |f| < 2 then 0 else |f| - 1
    ensures forall i :: 0 <= i < |p| ==> p[i] == (f[i], f[i + 1])
  {
    if |f| < 2 then []
    else Pairs(f[..|f| - 1]) + [(f[|f| - 2], f[|f| - 1])]
  }

  /** The number of positions at which `a` is immediately followed by `b`. */
  function AdjacentCount(f: seq<string>, a: string, b: string): nat {
    |set i | 0 <= i < |f| - 1 && StepAt(f, i, a, b)|
  }

  /** Position `i` holds `a` and position `i + 1` holds `b`. */
  predicate StepAt(f: seq<string>, i: int, a: string, b: string) {
    0 <= i < |f| - 1 && f[i] == a && f[i + 1] == b
  }

  /** `groupby([song_id, "next_song"]).size()`: one weighted edge per
      distinct transition. */
  function TransitionEdges(keys: seq<string>, top: set<string>): Dict<(string, string), nat> {
    Tally(Pairs(KeepIn(keys, top)))
  }

  lemma {:induction false} PairsCount(f: seq<string>, a: string, b: string)
    ensures Count(Pairs(f), (a, b)) == AdjacentCount(f, a, b)
    decreases |f|
  {
    if |f| < 2 {
      assert (set i | 0 <= i < |f| - 1 && StepAt(f, i, a, b)) == {};
    } else {
      var n := |f| - 1;
      var init := f[..n];
      assert Pairs(f) == Pairs(init) + [(f[n - 1], f[n])];
      PairsCount(init, a, b);
      CountConcat(Pairs(init), [(f[n - 1], f[n])], (a, b));
      AdjacentSnoc(f, a, b);
    }
  }

  /** Growing the sequence by one play adds at most the one new position. */
  lemma AdjacentSnoc(f: seq<string>, a: string, b: string)
    requires |f| >= 2
    ensures AdjacentCount(f, a, b) ==
      AdjacentCount(f[..|f| - 1], a, b) + (if f[|f| - 2] == a && f[|f| - 1] == b then 1 else 0)
  {
    var n := |f| - 1;
    var init := f[..n];
    var small := set i | 0 <= i < |init| - 1 && StepAt(init, i, a, b);
    var big := set i | 0 <= i < |f| - 1 && StepAt(f, i, a, b);
    var last := if StepAt(f, n - 1, a, b) then {n - 1} else {};
    assert big == small + last by {
      forall i | 0 <= i < |init| - 1
        ensures StepAt(init, i, a, b) == StepAt(f, i, a, b)
      {
      }
    }
    assert small !! last;
  }

  /** The weight of edge (a, b) is the number of places where a play of `a`
      is directly followed, among the top-k plays, by a play of `b`;
      self-loops included. */
  lemma EdgeWeight(keys: seq<string>, top: set<string>, a: string, b: string)
    ensures CountOf(TransitionEdges(keys, top), (a, b)) == AdjacentCount(KeepIn(keys, top), a, b)
  {
    PairsCount(KeepIn(keys, top), a, b);
  }

  /** With m plays of top-k songs the weights add up to m - 1 (none for m <= 1). */
  lemma TotalWeight(keys: seq<string>, top: set<string>)
    ensures var m := |KeepIn(keys, top)|;
      Total(TransitionEdges(keys, top)) == if m == 0 then 0 else m - 1
  {
  }

  /** The nodes `add_edge` creates. */
  function Nodes(e: Dict<(string, string), nat>): set<string> {
    (set p | p in Keys(e) :: p.0) + (set p | p in Keys(e) :: p.1)
  }

  /** The nodes are exactly the songs of the filtered plays, as soon as there
      are two of them, and there are none otherwise. */
  lemma NodesAreFilteredSongs(keys: seq<string>, top: set<string>)
    ensures var f := KeepIn(keys, top);
      Nodes(TransitionEdges(keys, top)) == if |f| < 2 then {} else Elems(f)
  {
    var f := KeepIn(keys, top);
    if |f| >= 2 {
      NodesCoverPlays(f);
      NodesArePlays(f);
    } else {
      assert Pairs(f) == [];
      assert Keys(Tally(Pairs(f))) == [];
    }
  }

  lemma NodesCoverPlays(f: seq<string>)
    requires |f| >= 2
    ensures Elems(f) <= Nodes(Tally(Pairs(f)))
  {
    var p := Pairs(f);
    forall x | x in Elems(f)
      ensures x in Nodes(Tally(p))
    {
      var i :| 0 <= i < |f| && f[i] == x;
      var j := if i < |f| - 1 then i else i - 1;
      assert p[j] == (f[j], f[j + 1]);
      assert p[j] in p;
      assert p[j] in Keys(Tally(p));
    }
  }

  lemma NodesArePlays(f: seq<string>)
    ensures Nodes(Tally(Pairs(f))) <= Elems(f)
  {
    var p := Pairs(f);
    var ks := Keys(Tally(p));
    forall q | q in ks
      ensures q.0 in Elems(f) && q.1 in Elems(f)
    {
      assert q in p;
      var i :| 0 <= i < |p| && p[i] == q;
      assert p[i] == (f[i], f[i + 1]);
      assert f[i] in f && f[i + 1] in f;
    }
  }

  /** A play of an unranked song between two ranked ones leaves every edge as
      it was: the ranked plays around it are still joined. */
  lemma UnrankedPlayIsSkipped(s1: seq<string>, u: string, s2: seq<string>, top: set<string>)
    requires u !in top
    ensures TransitionEdges(s1 + [u] + s2, top) == TransitionEdges(s1 + s2, top)
  {
    UnrankedPlayIsDropped(s1, u, s2, top);
  }

  lemma UnrankedPlayIsDropped(s1: seq<string>, u: string, s2: seq<string>, top: set<string>)
    requires u !in top
    ensures KeepIn(s1 + [u] + s2, top) == KeepIn(s1 + s2, top)
  {
    assert [u][1..] == [];
    assert KeepIn([u], top) == [];
    calc {
      KeepIn(s1 + [u] + s2, top);
    == { assert s1 + [u] + s2 == s1 + ([u] + s2); }
      KeepIn(s1 + ([u] + s2), top);
    == { KeepInConcat(s1, [u] + s2, top); }
      KeepIn(s1, top) + KeepIn([u] + s2, top);
    == { KeepInConcat([u], s2, top); }
      KeepIn(s1, top) + KeepIn(s2, top);
    == { KeepInConcat(s1, s2, top); }
      KeepIn(s1 + s2, top);
    }
  }

  lemma {:induction false} KeepInConcat(s: seq<string>, t: seq<string>, top: set<string>)
    ensures KeepIn(s + t, top) == KeepIn(s, top) + KeepIn(t, top)
  {
    if s != [] {
      KeepInConcat(s[1..], t, top);
      assert (s + t)[0] == s[0];
      assert (s + t)[1..] == s[1..] + t;
    } else {
      assert s + t == t;
    }
  }

  /** Every play of a selected song survives, as often as it was played, and
      no play of another song does. */
  lemma {:induction false} KeepInCount(s: seq<string>, top: set<string>, x: string)
    ensures multiset(KeepIn(s, top))[x] == if x in top then multiset(s)[x] else 0
  {
    if s != [] {
      KeepInCount(s[1..], top, x);
      assert s == [s[0]] + s[1..];
    }
  }

  /** A ranked song played, interrupted by an unranked one, then played twice
      more: the interruption is skipped and the self-loop weighs 2. */
  lemma SelfLoopAcrossUnranked(a: string, u: string)
    requires a != u
    ensures CountOf(TransitionEdges([a, u, a, a], {a}), (a, a)) == 2
  {
    KeepInScenario(a, u);
    EdgeWeight([a, u, a, a], {a}, a, a);
    AdjacentRepeat(a);
  }

  lemma KeepInScenario(a: string, u: string)
    requires a != u
    ensures KeepIn([a, u, a, a], {a}) == [a, a, a]
  {
    UnrankedPlayIsDropped([a], u, [a, a], {a});
    assert [a] + [u] + [a, a] == [a, u, a, a];
    assert [a] + [a, a] == [a, a, a];
    assert KeepIn([a], {a}) == [a] + KeepIn([], {a});
    assert [a, a][1..] == [a];
    assert KeepIn([a, a], {a}) == [a] + KeepIn([a], {a});
    assert [a, a, a][1..] == [a, a];
  }

  lemma AdjacentRepeat(a: string)
    ensures AdjacentCount([a, a, a], a, a) == 2
  {
    var f := [a, a, a];
    assert StepAt(f, 0, a, a) && StepAt(f, 1, a, a);
    assert (set i | 0 <= i < |f| - 1 && StepAt(f, i, a, a)) == {0, 1};
  }

  /** The result: the plays in time order, the top-k ranking and the
      weighted edges. */
  datatype TopKGraph = TopKGraph(order: seq<Play>, top: seq<(string, nat)>, edges: Dict<(string, string), nat>)

  /** `gen_top_k_graph` up to the drawing. */
  function GenTopKGraph(rows: seq<Play>, k: int): (g: TopKGraph)
    ensures SortedByTime(g.order) && multiset(g.order) == multiset(rows)
    ensures IsTopK(g.top, GraphKeys(g.order), k)
    ensures forall a, b ::
      CountOf(g.edges, (a, b)) == AdjacentCount(KeepIn(GraphKeys(g.order), Elems(Keys(g.top))), a, b)
  {
    var order := SortByTime(rows);
    var keys := GraphKeys(order);
    var top := TopK(keys, k);
    TopKIsTopK(keys, k);
    forall a, b
      ensures CountOf(TransitionEdges(keys, Elems(Keys(top))), (a, b)) ==
        AdjacentCount(KeepIn(keys, Elems(Keys(top))), a, b)
    {
      EdgeWeight(keys, Elems(Keys(top)), a, b);
    }
    TopKGraph(order, top, TransitionEdges(keys, Elems(Keys(top))))
  }
}
