/** The play-event log: one record per play, in the order of the export. */
module Records {

  type Hour = h: int | 0 <= h < 24
  type Weekday = d: int | 0 <= d < 7
  type Month = m: int | 1 <= m <= 12 witness 1

  /** A timestamp already read in the zone of its column: `instant` orders
      timestamps in absolute time; `hour`, `weekday` (Monday = 0) and `month`
      are the calendar fields pandas exposes as `.hour`, `.weekday()` and
      `.month`. */
  datatype Stamp = Stamp(instant: int, hour: Hour, weekday: Weekday, month: Month)

  /** One row of the streaming history. `endTime` is the export's UTC end of
      play and `endLocalTime` the same moment in the listener's zone. */
  datatype Play = Play(
    trackName: string,
    artistName: string,
    msPlayed: int,
    endTime: Stamp,
    endLocalTime: Stamp)

  /** The timestamp columns an operation can be pointed at. */
  datatype TimeColumn = EndTime | EndLocalTime

  function At(p: Play, column: TimeColumn): Stamp {
    match column
    case EndTime => p.endTime
    case EndLocalTime => p.endLocalTime
  }

  /** The column `trackName` (or `artistName`) as a sequence. */
  function Tracks(rows: seq<Play>): (r: seq<string>)
    ensures |r| == |rows|
    ensures forall i :: 0 <= i < |rows| ==> r[i] == rows[i].trackName
  {
    seq(|rows|, i requires 0 <= i < |rows| => rows[i].trackName)
  }

  function Artists(rows: seq<Play>): (r: seq<string>)
    ensures |r| == |rows|
    ensures forall i :: 0 <= i < |rows| ==> r[i] == rows[i].artistName
  {
    seq(|rows|, i requires 0 <= i < |rows| => rows[i].artistName)
  }
}
