/** The helpers of wrapy/utils.py that work on values: splitting pairs,
    the weekday-name lookup and the date-range filter. */
module Utils {
  import opened Wrappers
  import opened Records

  /** `x, y = zip(*tuples)`: the components of every pair, in order. With no
      pairs `zip()` yields nothing and unpacking it into two names raises
      `ValueError`. */
  function SeparateDiTuples<A, B>(tuples: seq<(A, B)>): (r: Result<(seq<A>, seq<B>)>)
    ensures r.Err? <==> tuples == []
    ensures r.Err? ==> r.error == ValueError
    ensures r.Ok? ==> |r.value.0| == |tuples| && |r.value.1| == |tuples|
    ensures r.Ok? ==> forall i :: 0 <= i < |tuples| ==> (r.value.0[i], r.value.1[i]) == tuples[i]
  {
    if tuples == [] then Err(ValueError)
    else
      Ok((seq(|tuples|, i requires 0 <= i < |tuples| => tuples[i].0),
          seq(|tuples|, i requires 0 <= i < |tuples| => tuples[i].1)))
  }

  /** `days_week_map[day_id]` for a map passed in by the caller. */
  function MapIntDayToWeekdayName(daysWeekMap: map<int, string>, dayId: int): (r: Result<string>)
    ensures r.Err? <==> dayId !in daysWeekMap
    ensures r.Err? ==> r.error == KeyError
    ensures r.Ok? ==> r.value == daysWeekMap[dayId]
  {
    if dayId in daysWeekMap then Ok(daysWeekMap[dayId]) else Err(KeyError)
  }

  /** A calendar date as `datetime.date` holds it. */
  datatype Date = Date(year: int, month: int, day: int)

  /** `pd.Timestamp(date, tz=zone)`: the instant of midnight opening `d` in
      the zone of the column. The zone database is not modelled; the caller
      supplies this conversion. */
  type Midnight = Date -> int

  predicate InDateRange(p: Play, column: TimeColumn, start: Date, end: Date, midnight: Midnight) {
    midnight(start) <= At(p, column).instant <= midnight(end)
  }

  /** `filter_data_by_dates`: the rows whose timestamp lies between the two
      midnights, both ends included, in their original order. */
  function FilterDataByDates(rows: seq<Play>, column: TimeColumn, start: Date, end: Date, midnight: Midnight)
    : (r: seq<Play>)
    ensures forall p :: p in r <==> p in rows && InDateRange(p, column, start, end, midnight)
    ensures |r| <= |rows|
  {
    if rows == [] then []
    else
      (if InDateRange(rows[0], column, start, end, midnight) then [rows[0]] else [])
      + FilterDataByDates(rows[1..], column, start, end, midnight)
  }

  lemma FilterCons(h: Play, t: seq<Play>, column: TimeColumn, start: Date, end: Date, midnight: Midnight)
    ensures FilterDataByDates([h] + t, column, start, end, midnight) ==
            (if InDateRange(h, column, start, end, midnight) then [h] else []) +
            FilterDataByDates(t, column, start, end, midnight)
  {
    assert ([h] + t)[0] == h && ([h] + t)[1..] == t;
  }

  /** Filtering commutes with concatenation, so the kept rows keep their
      relative order. */
  lemma {:induction false} FilterConcat(a: seq<Play>, b: seq<Play>, column: TimeColumn, start: Date, end: Date,
                                        midnight: Midnight)
    ensures FilterDataByDates(a + b, column, start, end, midnight) ==
            FilterDataByDates(a, column, start, end, midnight) + FilterDataByDates(b, column, start, end, midnight)
  {
    if a == [] {
      assert a + b == b;
      assert FilterDataByDates(a, column, start, end, midnight) == [];
    } else {
      var h := a[0];
      var t := a[1..];
      assert a == [h] + t;
      assert a + b == [h] + (t + b);
      var first := if InDateRange(h, column, start, end, midnight) then [h] else [];
      calc {
        FilterDataByDates(a + b, column, start, end, midnight);
        { FilterCons(h, t + b, column, start, end, midnight); }
        first + FilterDataByDates(t + b, column, start, end, midnight);
        { FilterConcat(t, b, column, start, end, midnight); }
        first + (FilterDataByDates(t, column, start, end, midnight) + FilterDataByDates(b, column, start, end, midnight));
        (first + FilterDataByDates(t, column, start, end, midnight)) + FilterDataByDates(b, column, start, end, midnight);
        { FilterCons(h, t, column, start, end, midnight); }
        FilterDataByDates(a, column, start, end, midnight) + FilterDataByDates(b, column, start, end, midnight);
      }
    }
  }

  /** Nothing in range is dropped and nothing out of range is kept, counting
      duplicates. */
  lemma {:induction false} FilterMultiplicity(rows: seq<Play>, column: TimeColumn, start: Date, end: Date,
                                              midnight: Midnight, p: Play)
    ensures multiset(FilterDataByDates(rows, column, start, end, midnight))[p] ==
            if InDateRange(p, column, start, end, midnight) then multiset(rows)[p] else 0
  {
    if rows != [] {
      FilterMultiplicity(rows[1..], column, start, end, midnight, p);
      assert rows == [rows[0]] + rows[1..];
    }
  }

  /** Filtering twice with the same bounds changes nothing. */
  lemma {:induction false} FilterIdempotent(rows: seq<Play>, column: TimeColumn, start: Date, end: Date,
                                            midnight: Midnight)
    ensures var once := FilterDataByDates(rows, column, start, end, midnight);
      FilterDataByDates(once, column, start, end, midnight) == once
  {
    if rows != [] {
      FilterIdempotent(rows[1..], column, start, end, midnight);
      var rest := FilterDataByDates(rows[1..], column, start, end, midnight);
      if InDateRange(rows[0], column, start, end, midnight) {
        var once := [rows[0]] + rest;
        assert once[0] == rows[0] && once[1..] == rest;
        assert FilterDataByDates(once, column, start, end, midnight) ==
               [rows[0]] + FilterDataByDates(rest, column, start, end, midnight);
      } else {
        assert FilterDataByDates(rows, column, start, end, midnight) == rest;
      }
    }
  }

  /** The end bound is midnight opening `end`: a play later that same day
      is not kept. */
  lemma LaterOnEndDayExcluded(rows: seq<Play>, column: TimeColumn, start: Date, end: Date, midnight: Midnight,
                              p: Play)
    requires At(p, column).instant > midnight(end)
    ensures p !in FilterDataByDates(rows, column, start, end, midnight)
  {
  }
}
