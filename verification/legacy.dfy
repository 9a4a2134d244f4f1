/** The older top-level script wrapy.py, which reads the export with its
    `endTime` column still as text. */
module Legacy {
  import opened Wrappers
  import opened Seqs
  import opened Dicts
  import opened Sorting
  import opened Records
  import Stats
  import Buckets

  /** A row of the raw export: the end time is the text `"%Y-%m-%d %H:%M"`. */
  datatype RawPlay = RawPlay(trackName: string, artistName: string, msPlayed: int, endTime: string)

  /** `pd.to_datetime(column, format=...)`: every cell is parsed by `parse`
      (the text-to-timestamp conversion, given by the caller); one cell that
      does not parse makes the whole conversion raise. */
  function ParseColumn(rows: seq<RawPlay>, parse: string -> Option<Stamp>): (r: Result<seq<Stamp>>)
    ensures r.Err? <==> exists i :: 0 <= i < |rows| && parse(rows[i].endTime).None?
    ensures r.Err? ==> r.error == ValueError
    ensures r.Ok? ==> |r.value| == |rows|
    ensures r.Ok? ==> forall i :: 0 <= i < |rows| ==> parse(rows[i].endTime) == Some(r.value[i])
  {
    if rows == [] then Ok([])
    else
      match parse(rows[0].endTime)
      case None => Err(ValueError)
      case Some(first) =>
        match ParseColumn(rows[1..], parse)
        case Err(e) =>
          var i :| 0 <= i < |rows[1..]| && parse(rows[1..][i].endTime).None?;
          assert parse(rows[i + 1].endTime).None?;
          Err(e)
        case Ok(rest) =>
          assert forall i :: 1 <= i < |rows| ==> parse(rows[i].endTime) == Some(rest[i - 1]);
          Ok([first] + rest)
  }

  function Weekdays(stamps: seq<Stamp>): (ks: seq<int>)
    ensures |ks| == |stamps|
    ensures forall i :: 0 <= i < |stamps| ==> ks[i] == stamps[i].weekday
  {
    seq(|stamps|, i requires 0 <= i < |stamps| => stamps[i].weekday)
  }

  /** `generate_plays_days_of_week_map`: the number of plays per weekday
      (Monday = 0), only for weekdays that occur, as `sorted(results.items())`.
      The conversion is done on a copy; the caller's rows are values here and
      cannot change. */
  function GeneratePlaysDaysOfWeekMap(rows: seq<RawPlay>, parse: string -> Option<Stamp>)
    : (r: Result<seq<(int, nat)>>)
    ensures r.Err? <==> exists i :: 0 <= i < |rows| && parse(rows[i].endTime).None?
    ensures r.Err? ==> r.error == ValueError
    ensures r.Ok? ==> StrictlyAscending(r.value)
    ensures r.Ok? ==> forall p :: p in r.value ==> 0 <= p.0 < 7
    ensures r.Ok? ==> var days := Weekdays(ParseColumn(rows, parse).value);
      forall p :: p in r.value <==> p.0 in days && p.1 == Count(days, p.0)
    ensures r.Ok? ==> Total(r.value) == |rows|
  {
    var stamps :- ParseColumn(rows, parse);
    var days := Weekdays(stamps);
    Buckets.SortedTallyFacts(days);
    Ok(SortItems(Tally(days)))
  }

  /** `compute_unique_values` of the old script: the same count as the
      package's (the printed line is not modelled). */
  method ComputeUniqueValues<T(==)>(column: seq<T>) returns (count: nat)
    ensures count == |Elems(column)|
    ensures count >= 1 <==> column != []
    ensures forall other: seq<T> :: multiset(other) == multiset(column) ==> count == |Elems(other)|
  {
    count := Stats.ComputeUniqueValues(column);
    forall other: seq<T> | multiset(other) == multiset(column)
      ensures count == |Elems(other)|
    {
      Stats.UniqueCountIgnoresOrder(other, column);
    }
  }

  /** `df["msPlayed"].sum()` over the raw rows. */
  function SumMs(rows: seq<RawPlay>): int {
    Sum(seq(|rows|, i requires 0 <= i < |rows| => rows[i].msPlayed))
  }

  /** `calculate_human_total_play` of the old script: whole days, then the
      hours and minutes left over, sub-minute milliseconds dropped. */
  function CalculateHumanTotalPlay(rows: seq<RawPlay>): (t: Stats.HumanTime)
    ensures 0 <= t.hours < 24 && 0 <= t.minutes < 60
    ensures Stats.Compose(t) <= SumMs(rows) < Stats.Compose(t) + Stats.MsPerMinute
  {
    Stats.Decompose(SumMs(rows))
  }
}
