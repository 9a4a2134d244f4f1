/** Skip counts, the plays-per-day average, distinct-value counts and the
    total listening time (wrapy/core.py). */
module Stats {
  import opened Wrappers
  import opened Seqs
  import opened Constants
  import opened Records

  /** `data[data["msPlayed"] < ms_tolerance]`: the skipped plays, in order. */
  function Skips(rows: seq<Play>, tolerance: int): (r: seq<Play>)
    ensures forall p :: p in r <==> p in rows && p.msPlayed < tolerance
  {
    if rows == [] then []
    else (if rows[0].msPlayed < tolerance then [rows[0]] else []) + Skips(rows[1..], tolerance)
  }

  /** `data[data["msPlayed"] >= ms_tolerance]`: the plays that were listened to. */
  function Listens(rows: seq<Play>, tolerance: int): (r: seq<Play>)
    ensures forall p :: p in r <==> p in rows && p.msPlayed >= tolerance
  {
    if rows == [] then []
    else (if rows[0].msPlayed >= tolerance then [rows[0]] else []) + Listens(rows[1..], tolerance)
  }

  /** Each short play is a skip as often as it occurs in the log. */
  lemma {:induction false} SkipsCount(rows: seq<Play>, tolerance: int, p: Play)
    ensures multiset(Skips(rows, tolerance))[p] == if p.msPlayed < tolerance then multiset(rows)[p] else 0
  {
    if rows != [] {
      SkipsCount(rows[1..], tolerance, p);
      assert rows == [rows[0]] + rows[1..];
    }
  }

  /** Each long enough play is a listen as often as it occurs in the log. */
  lemma {:induction false} ListensCount(rows: seq<Play>, tolerance: int, p: Play)
    ensures multiset(Listens(rows, tolerance))[p] == if p.msPlayed >= tolerance then multiset(rows)[p] else 0
  {
    if rows != [] {
      ListensCount(rows[1..], tolerance, p);
      assert rows == [rows[0]] + rows[1..];
    }
  }

  /** Every play is either a skip or a listen, never both. */
  lemma {:induction false} SkipsPartition(rows: seq<Play>, tolerance: int)
    ensures |Skips(rows, tolerance)| + |Listens(rows, tolerance)| == |rows|
  {
    if rows != [] {
      SkipsPartition(rows[1..], tolerance);
    }
  }

  datatype SkipStats = SkipStats(percentage: real, total: nat)

  /** `part / whole * 100.0` with exact rationals. */
  function Percentage(part: nat, whole: nat): (p: real)
    requires 0 < whole
    ensures p * (whole as real) == 100.0 * (part as real)
    ensures part <= whole ==> 0.0 <= p <= 100.0
  {
    var ratio := part as real / whole as real;
    assert ratio * whole as real == part as real;
    assert part <= whole ==> ratio <= 1.0;
    ratio * 100.0
  }

  /** `count_song_skips`: the number of skips and their share of all plays in
      percent. The share divides by the row count, so an empty
      log raises `ZeroDivisionError`. */
  function CountSongSkips(rows: seq<Play>, tolerance: int): (r: Result<SkipStats>)
    ensures r.Err? <==> rows == []
    ensures r.Err? ==> r.error == ZeroDivisionError
    ensures r.Ok? ==> r.value.total == |Skips(rows, tolerance)|
    ensures r.Ok? ==> r.value.percentage == Percentage(r.value.total, |rows|)
    ensures r.Ok? ==> 0.0 <= r.value.percentage <= 100.0
  {
    var jumps := |Skips(rows, tolerance)|;
    if |rows| == 0 then Err(ZeroDivisionError)
    else
      SkipsPartition(rows, tolerance);
      Ok(SkipStats(Percentage(jumps, |rows|), jumps))
  }

  /** `get_average_plays_per_day`: non-skipped plays over a fixed 365 days. */
  function AveragePlaysPerDay(rows: seq<Play>, tolerance: int): (avg: real)
    ensures avg * DaysPerYear == |Listens(rows, tolerance)| as real
    ensures 0.0 <= avg
  {
    |Listens(rows, tolerance)| as real / DaysPerYear
  }

  /** The skip count and the average's numerator split the log between them. */
  lemma SkipsAndAverageCoverLog(rows: seq<Play>, tolerance: int)
    requires rows != []
    ensures (CountSongSkips(rows, tolerance).value.total as real)
            + AveragePlaysPerDay(rows, tolerance) * DaysPerYear == |rows| as real
  {
    SkipsPartition(rows, tolerance);
  }

  /** `compute_unique_values`: how many different values a column holds. */
  method ComputeUniqueValues<T(==)>(column: seq<T>) returns (count: nat)
    ensures count == |Elems(column)|
    ensures count <= |column|
    ensures count >= 1 <==> column != []
  {
    var seen: set<T> := {};
    var i := 0;
    while i < |column|
      invariant 0 <= i <= |column|
      invariant seen == Elems(column[..i])
    {
      assert column[..i + 1] == column[..i] + [column[i]];
      seen := seen + {column[i]};
      i := i + 1;
    }
    assert column[..i] == column;
    count := |seen|;
    ElemsCard(column);
  }

  /** The distinct count does not depend on the order of the rows. */
  lemma UniqueCountIgnoresOrder<T>(a: seq<T>, b: seq<T>)
    requires multiset(a) == multiset(b)
    ensures |Elems(a)| == |Elems(b)|
  {
    ElemsOfPermutation(a, b);
  }

  const MsPerDay: nat := TotalSecondsPerDay * 1000
  const MsPerHour: nat := TotalSecondsPerHour * 1000
  const MsPerMinute: nat := TotalSecondsPerMinute * 1000

  datatype HumanTime = HumanTime(days: int, hours: int, minutes: int)

  /** The whole milliseconds a decomposition accounts for. */
  function Compose(t: HumanTime): int {
    t.days * MsPerDay + t.hours * MsPerHour + t.minutes * MsPerMinute
  }

  /** `data["msPlayed"].sum()`. */
  function TotalMs(rows: seq<Play>): int {
    Sum(seq(|rows|, i requires 0 <= i < |rows| => rows[i].msPlayed))
  }

  /** The day/hour/minute split of a duration. Python's `//` and `%` round
      toward negative infinity, which is what Dafny's `/` and `%` do for a
      positive divisor. */
  function Decompose(totalMs: int): (t: HumanTime)
    ensures 0 <= t.hours < 24 && 0 <= t.minutes < 60
    ensures Compose(t) <= totalMs < Compose(t) + MsPerMinute
  {
    var days := totalMs / MsPerDay;
    var r1 := totalMs % MsPerDay;
    var hours := r1 / MsPerHour;
    var r2 := r1 % MsPerHour;
    var minutes := r2 / MsPerMinute;
    assert totalMs == days * MsPerDay + r1;
    assert r1 == hours * MsPerHour + r2;
    assert r2 == minutes * MsPerMinute + r2 % MsPerMinute;
    HumanTime(days, hours, minutes)
  }

  /** `calculate_human_total_play`. */
  function CalculateHumanTotalPlay(rows: seq<Play>): (t: HumanTime)
    ensures 0 <= t.hours < 24 && 0 <= t.minutes < 60
    ensures Compose(t) <= TotalMs(rows) < Compose(t) + MsPerMinute
  {
    Decompose(TotalMs(rows))
  }

  lemma MulAtLeast(x: int, b: int)
    requires x >= 1 && b > 0
    ensures x * b >= b
    decreases x
  {
    if x > 1 {
      MulAtLeast(x - 1, b);
      assert x * b == (x - 1) * b + b;
    }
  }

  lemma DivisionUnique(a: int, b: int, q: int, r: int)
    requires b > 0 && a == q * b + r && 0 <= r < b
    ensures q == a / b && r == a % b
  {
    var q', r' := a / b, a % b;
    assert a == q' * b + r';
    assert (q - q') * b == r' - r;
    if q > q' {
      MulAtLeast(q - q', b);
    } else if q < q' {
      MulAtLeast(q' - q, b);
    }
  }

  /** The decomposition is the only one with hours below 24, minutes below 60
      and less than a minute left over: the sub-minute part is truncated. */
  lemma DecomposeUnique(totalMs: int, t: HumanTime)
    requires 0 <= t.hours < 24 && 0 <= t.minutes < 60
    requires Compose(t) <= totalMs < Compose(t) + MsPerMinute
    ensures Decompose(totalMs) == t
  {
    var e := totalMs - Compose(t);
    var r1 := t.hours * MsPerHour + t.minutes * MsPerMinute + e;
    DivisionUnique(totalMs, MsPerDay, t.days, r1);
    var r2 := t.minutes * MsPerMinute + e;
    DivisionUnique(r1, MsPerHour, t.hours, r2);
    DivisionUnique(r2, MsPerMinute, t.minutes, e);
  }

  /** One day, one hour, one minute and one second come out as 1 / 1 / 1,
      the second dropped. */
  lemma DecomposeExample()
    ensures Decompose(90061000) == HumanTime(1, 1, 1)
  {
    DecomposeUnique(90061000, HumanTime(1, 1, 1));
  }

  /** Two of three plays under the default ten seconds: two skips, two thirds
      of the plays, and one listen over the year. */
  lemma SkipsExample(s: Stamp)
    ensures var rows := [Play("a", "x", 5000, s, s), Play("b", "y", 20000, s, s), Play("c", "z", 5000, s, s)];
      && CountSongSkips(rows, DefaultMsTolerance) == Ok(SkipStats(200.0 / 3.0, 2))
      && AveragePlaysPerDay(rows, DefaultMsTolerance) == 1.0 / 365.0
  {
    var rows := [Play("a", "x", 5000, s, s), Play("b", "y", 20000, s, s), Play("c", "z", 5000, s, s)];
    var t := DefaultMsTolerance;
    assert rows[1..] == [rows[1], rows[2]] && rows[1..][1..] == [rows[2]] && [rows[2]][1..] == [];
    assert Skips([rows[2]], t) == [rows[2]];
    assert Skips([rows[1], rows[2]], t) == [rows[2]];
    assert Skips(rows, t) == [rows[0], rows[2]];
    assert Listens([rows[2]], t) == [];
    assert Listens([rows[1], rows[2]], t) == [rows[1]];
    assert Listens(rows, t) == [rows[1]];
  }
}
