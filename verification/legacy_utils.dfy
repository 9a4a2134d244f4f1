/** The helpers of the older top-level utils.py. */
module LegacyUtils {
  import opened Wrappers
  import opened Constants
  import Utils

  function Zip<A, B>(x: seq<A>, y: seq<B>): (r: seq<(A, B)>)
    requires |x| == |y|
    ensures |r| == |x|
    ensures forall i :: 0 <= i < |x| ==> r[i] == (x[i], y[i])
  {
    seq(|x|, i requires 0 <= i < |x| => (x[i], y[i]))
  }

  /** `separate_di_tuples_in_two_lists`, the loop version: appends the two
      components of each pair to two lists. No pairs give two empty lists. */
  method SeparateDiTuples<A, B>(tuples: seq<(A, B)>) returns (x: seq<A>, y: seq<B>)
    ensures |x| == |tuples| && |y| == |tuples|
    ensures forall i :: 0 <= i < |tuples| ==> x[i] == tuples[i].0 && y[i] == tuples[i].1
    ensures Zip(x, y) == tuples
  {
    x := [];
    y := [];
    var i := 0;
    while i < |tuples|
      invariant 0 <= i <= |tuples|
      invariant |x| == i && |y| == i
      invariant forall j :: 0 <= j < i ==> x[j] == tuples[j].0 && y[j] == tuples[j].1
    {
      x := x + [tuples[i].0];
      y := y + [tuples[i].1];
      i := i + 1;
    }
  }

  /** The two revisions agree on every non-empty input; on the empty one the
      loop version answers `([], [])` where the other raises. */
  method RevisionsAgree<A, B>(tuples: seq<(A, B)>) returns (x: seq<A>, y: seq<B>)
    ensures tuples != [] ==> Utils.SeparateDiTuples(tuples) == Ok((x, y))
    ensures tuples == [] ==> x == [] && y == [] && Utils.SeparateDiTuples(tuples).Err?
  {
    x, y := SeparateDiTuples(tuples);
    if tuples != [] {
      var r := Utils.SeparateDiTuples(tuples);
      assert r.value.0 == x;
      assert r.value.1 == y;
    }
  }

  /** `DAYS_WEEK_MAP[day_id]`, a `KeyError` outside 0..6. */
  function MapIntDayToWeekdayName(dayId: int): (r: Result<string>)
    ensures r.Ok? <==> 0 <= dayId < 7
    ensures r.Err? ==> r.error == KeyError
    ensures r.Ok? ==> r.value == DaysWeekMap[dayId]
  {
    Utils.MapIntDayToWeekdayName(DaysWeekMap, dayId)
  }
}
