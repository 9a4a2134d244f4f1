/** The numeric and lookup constants of `wrapy/constants.py`. */
module Constants {

  const TotalSecondsPerDay: nat := 86400
  const TotalSecondsPerHour: nat := 3600
  const TotalSecondsPerMinute: nat := 60

  /** The fixed divisor of the plays-per-day average (not the span of the data). */
  const DaysPerYear: real := 365.0

  /** The default `ms_tolerance`: a play shorter than this many milliseconds
      counts as a skip. */
  const DefaultMsTolerance: int := 10000

  /** The bucket kinds `generate_plays_to_x_map` accepts. */
  const AllowedXTargets: set<string> := {"month", "weekday", "hour"}

  /** Weekday names indexed Monday = 0 ... Sunday = 6 (the Spanish table). */
  const DaysWeekMap: map<int, string> := map[
    0 := "Lunes",
    1 := "Martes",
    2 := "Miércoles",
    3 := "Jueves",
    4 := "Viernes",
    5 := "Sabádo",
    6 := "Domingo"
  ]
}
