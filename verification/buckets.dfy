/** Plays per hour, weekday and month (`generate_plays_to_x_map` and its
    accumulator `__increase_key_group` in wrapy/core.py). */
module Buckets {
  import opened Wrappers
  import opened Seqs
  import opened Dicts
  import opened Sorting
  import opened Constants
  import opened Records

  /** The accumulator: one counter dict per bucket kind. */
  type Groups = map<string, Dict<int, nat>>

  /** The accumulator every run starts from. */
  const EmptyGroups: Groups := map["hour" := [], "weekday" := [], "month" := []]

  /** `__increase_key_group`: asserts the group exists, then counts `key` once
      more in that group and leaves every other group alone. */
  function IncreaseKeyGroup(groups: Groups, name: string, key: int): (r: Result<Groups>)
    ensures r.Err? <==> name !in groups
    ensures r.Err? ==> r.error == AssertionError
    ensures r.Ok? ==> r.value.Keys == groups.Keys
    ensures r.Ok? ==> CountOf(r.value[name], key) == CountOf(groups[name], key) + 1
    ensures r.Ok? ==> forall x :: x != key ==> CountOf(r.value[name], x) == CountOf(groups[name], x)
    ensures r.Ok? ==> forall g :: g in groups && g != name ==> r.value[g] == groups[g]
  {
    if name !in groups then Err(AssertionError)
    else Ok(groups[name := Increase(groups[name], key)])
  }

  /** The calendar field a bucket kind reads: `.hour`, `.weekday()` or `.month`. */
  function KeyOf(s: Stamp, name: string): int {
    if name == "hour" then s.hour
    else if name == "weekday" then s.weekday
    else s.month
  }

  /** The bucket keys of every row, in row order. */
  function KeysOf(rows: seq<Play>, name: string, column: TimeColumn): (ks: seq<int>)
    ensures |ks| == |rows|
    ensures forall i :: 0 <= i < |rows| ==> ks[i] == KeyOf(At(rows[i], column), name)
  {
    seq(|rows|, i requires 0 <= i < |rows| => KeyOf(At(rows[i], column), name))
  }

  /** The body of the row loop: each requested kind counts the row once. */
  function CountRow(groups: Groups, targets: set<string>, s: Stamp): (r: Groups)
    requires groups.Keys == AllowedXTargets
    ensures r.Keys == AllowedXTargets
  {
    var g1 := if "hour" in targets then IncreaseKeyGroup(groups, "hour", s.hour).value else groups;
    var g2 := if "weekday" in targets then IncreaseKeyGroup(g1, "weekday", s.weekday).value else g1;
    if "month" in targets then IncreaseKeyGroup(g2, "month", s.month).value else g2
  }

  /** One row adds one to its key in each requested kind and nothing else. */
  lemma CountRowEffect(groups: Groups, targets: set<string>, s: Stamp, name: string)
    requires groups.Keys == AllowedXTargets
    requires name in AllowedXTargets
    ensures CountRow(groups, targets, s)[name] ==
            if name in targets then Increase(groups[name], KeyOf(s, name)) else groups[name]
  {
  }

  /** The single pass over the rows. */
  function CountRows(rows: seq<Play>, targets: set<string>, column: TimeColumn): (r: Groups)
    ensures r.Keys == AllowedXTargets
  {
    if rows == [] then EmptyGroups
    else CountRow(CountRows(rows[..|rows| - 1], targets, column), targets, At(rows[|rows| - 1], column))
  }

  /** The single pass computes, for each requested kind, the same counter a
      separate pass over that kind's keys would; unrequested kinds stay empty. */
  lemma {:induction false} CountRowsIsTally(rows: seq<Play>, targets: set<string>, column: TimeColumn, name: string)
    requires name in AllowedXTargets
    ensures CountRows(rows, targets, column)[name] ==
            if name in targets then Tally(KeysOf(rows, name, column)) else []
  {
    if rows != [] {
      var init := rows[..|rows| - 1];
      var last := At(rows[|rows| - 1], column);
      CountRowsIsTally(init, targets, column, name);
      CountRowEffect(CountRows(init, targets, column), targets, last, name);
      var ks := KeysOf(rows, name, column);
      assert KeysOf(init, name, column) == ks[..|ks| - 1];
    }
  }

  /** The validation loop: every requested kind must be an allowed one. */
  predicate ValidTargets(targets: set<string>) {
    forall t :: t in targets ==> t in AllowedXTargets
  }

  /** `generate_plays_to_x_map`: rejects an unknown kind before counting,
      counts every requested kind in one pass, then replaces each counter by
      its items sorted by key. */
  function GeneratePlaysToXMap(rows: seq<Play>, targets: set<string>, column: TimeColumn)
    : (r: Result<map<string, seq<(int, nat)>>>)
    ensures r.Err? <==> !ValidTargets(targets)
    ensures r.Err? ==> r.error == AssertionError
    ensures r.Ok? ==> r.value.Keys == AllowedXTargets
    ensures r.Ok? ==> forall name :: name in AllowedXTargets && name !in targets ==> r.value[name] == []
  {
    if !ValidTargets(targets) then Err(AssertionError)
    else
      var groups := CountRows(rows, targets, column);
      CountRowsUnrequested(rows, targets, column);
      Ok(map name | name in AllowedXTargets :: SortItems(groups[name]))
  }

  lemma CountRowsUnrequested(rows: seq<Play>, targets: set<string>, column: TimeColumn)
    ensures forall name :: name in AllowedXTargets && name !in targets ==> CountRows(rows, targets, column)[name] == []
  {
    forall name | name in AllowedXTargets && name !in targets
      ensures CountRows(rows, targets, column)[name] == []
    {
      CountRowsIsTally(rows, targets, column, name);
    }
  }

  /** A bucket key is always a valid value of its calendar field. */
  predicate InRange(name: string, key: int) {
    if name == "hour" then 0 <= key < 24
    else if name == "weekday" then 0 <= key < 7
    else 1 <= key <= 12
  }

  /** `sorted(counter.items())` of the counter of `ks`: the observed keys,
      each once with its count, strictly ascending, counts summing to `|ks|`. */
  lemma SortedTallyFacts(ks: seq<int>)
    ensures StrictlyAscending(SortItems(Tally(ks)))
    ensures forall p :: p in SortItems(Tally(ks)) <==> p.0 in ks && p.1 == Count(ks, p.0)
    ensures Total(SortItems(Tally(ks))) == |ks|
  {
    var t := Tally(ks);
    var r := SortItems(t);
    SortItemsFacts(t);
    SortItemsTotal(t);
    TallyItems(ks);
    forall p
      ensures p in r <==> p in t
    {
      assert p in r <==> p in multiset(r);
      assert p in t <==> p in multiset(t);
    }
  }

  lemma KeysInRange(rows: seq<Play>, name: string, column: TimeColumn)
    ensures forall k :: k in KeysOf(rows, name, column) ==> InRange(name, k)
  {
  }

  /** For each requested kind the result lists exactly the observed keys, each
      once with its number of rows, in strictly ascending key order, with keys
      in the field's range and counts summing to the number of rows. */
  lemma {:induction false} PlaysToXMapCounts(rows: seq<Play>, targets: set<string>, column: TimeColumn, name: string)
    requires ValidTargets(targets)
    requires name in targets
    ensures var r := GeneratePlaysToXMap(rows, targets, column).value[name];
      && StrictlyAscending(r)
      && (forall p :: p in r <==> p.0 in KeysOf(rows, name, column) && p.1 == Count(KeysOf(rows, name, column), p.0))
      && (forall p :: p in r ==> InRange(name, p.0))
      && Total(r) == |rows|
  {
    var ks := KeysOf(rows, name, column);
    CountRowsIsTally(rows, targets, column, name);
    assert GeneratePlaysToXMap(rows, targets, column).value[name] == SortItems(Tally(ks));
    SortedTallyFacts(ks);
    KeysInRange(rows, name, column);
  }
}
