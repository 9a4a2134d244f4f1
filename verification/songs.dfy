/** The rankings of wrapy/core.py: `get_top_songs`, `get_top_artists` and
    `get_top_songs_for_each_hour`. */
module Songs {
  import opened Wrappers
  import opened Seqs
  import opened Dicts
  import opened Sorting
  import opened Ranking
  import opened Records
  import opened SongKey

  function SongOf(p: Play): Song {
    Song(p.trackName, p.artistName)
  }

  /** The (track, artist) identity of every row, in row order. */
  function SongsOf(rows: seq<Play>): (r: seq<Song>)
    ensures |r| == |rows|
    ensures forall i :: 0 <= i < |rows| ==> r[i] == SongOf(rows[i])
  {
    seq(|rows|, i requires 0 <= i < |rows| => SongOf(rows[i]))
  }

  /** The `song_id` column. */
  function SongIds(rows: seq<Play>): seq<string> {
    MapSeq(SongId, SongsOf(rows))
  }

  /** One row of the `get_top_songs` frame: the two extracted columns (`None`
      when the extraction gives NaN) and the play count. */
  datatype SongEntry = SongEntry(song: Option<Song>, plays: nat)

  /** `get_top_songs`: ranks the `song_id` column with `value_counts().head(k)`
      and splits each ranked identifier back into track and artist. */
  function GetTopSongs(rows: seq<Play>, k: int): (r: seq<SongEntry>)
    ensures |r| == HeadLength(|Elems(SongIds(rows))|, k)
    ensures forall i, j :: 0 <= i < j < |r| ==> r[i].plays >= r[j].plays
  {
    var ranked := TopK(SongIds(rows), k);
    TopKIsTopK(SongIds(rows), k);
    seq(|ranked|, i requires 0 <= i < |ranked| => SongEntry(ExtractSong(ranked[i].0), ranked[i].1))
  }

  predicate AllClean(rows: seq<Play>) {
    forall p :: p in rows ==> Clean(SongOf(p))
  }

  /** The ranked songs with their counts (a NaN entry reads as the empty song). */
  function Entries(r: seq<SongEntry>): (e: seq<(Song, nat)>)
    ensures |e| == |r|
    ensures forall i :: 0 <= i < |r| ==> e[i] == (r[i].song.GetOr(Song("", "")), r[i].plays)
  {
    seq(|r|, i requires 0 <= i < |r| => (r[i].song.GetOr(Song("", "")), r[i].plays))
  }

  function SplitId(key: string): Song {
    ExtractSong(key).GetOr(Song("", ""))
  }

  /** When no track name holds the separator and no field a newline, every
      entry splits back into a real song, and the result is a top-k ranking
      of the (track, artist) pairs themselves: two songs that share a title
      but not an artist are counted apart. */
  lemma TopSongsRankSongs(rows: seq<Play>, k: int)
    requires AllClean(rows)
    ensures forall i :: 0 <= i < |GetTopSongs(rows, k)| ==> GetTopSongs(rows, k)[i].song.Some?
    ensures IsTopK(Entries(GetTopSongs(rows, k)), SongsOf(rows), k)
  {
    var ranked := TopK(SongIds(rows), k);
    SplitIdUndoesSongId(rows);
    TopKIsTopK(SongIds(rows), k);
    TopKTransport(SongId, SplitId, SongsOf(rows), ranked, k);
    EntriesAreSplitRanking(rows, k);
  }

  lemma SplitIdUndoesSongId(rows: seq<Play>)
    requires AllClean(rows)
    ensures LeftInverseOn(SongId, SplitId, SongsOf(rows))
  {
    forall x | x in SongsOf(rows)
      ensures SplitId(SongId(x)) == x
    {
      SongIdRoundTrip(x);
    }
  }

  /** Each entry is the split of its ranked identifier, and the split never
      fails on an identifier of a clean row. */
  lemma EntriesAreSplitRanking(rows: seq<Play>, k: int)
    requires AllClean(rows)
    ensures forall i :: 0 <= i < |GetTopSongs(rows, k)| ==> GetTopSongs(rows, k)[i].song.Some?
    ensures Entries(GetTopSongs(rows, k)) == Relabel(SplitId, TopK(SongIds(rows), k))
  {
    var songs := SongsOf(rows);
    var ids := SongIds(rows);
    var ranked := TopK(ids, k);
    var r := GetTopSongs(rows, k);
    TopKIsTopK(ids, k);
    forall i | 0 <= i < |r|
      ensures r[i].song.Some? && Entries(r)[i] == Relabel(SplitId, ranked)[i]
    {
      assert ranked[i].0 in ids;
      var a :| 0 <= a < |songs| && ids[a] == ranked[i].0;
      SongIdRoundTrip(songs[a]);
    }
  }

  /** `get_top_artists`: `value_counts().head(k)` of the artist column. */
  function GetTopArtists(rows: seq<Play>, k: int): (r: seq<(string, nat)>)
    ensures IsTopK(r, Artists(rows), k)
  {
    TopKIsTopK(Artists(rows), k);
    TopK(Artists(rows), k)
  }

  /** `data[data[timestamp_col].dt.hour == hour]`. */
  function RowsAtHour(rows: seq<Play>, hour: int, column: TimeColumn): (r: seq<Play>)
    ensures forall p :: p in r <==> p in rows && At(p, column).hour == hour
  {
    if rows == [] then []
    else (if At(rows[0], column).hour == hour then [rows[0]] else []) + RowsAtHour(rows[1..], hour, column)
  }

  /** Each play of that hour is kept as often as it occurs; no other is kept. */
  lemma {:induction false} RowsAtHourCount(rows: seq<Play>, hour: int, column: TimeColumn, p: Play)
    ensures multiset(RowsAtHour(rows, hour, column))[p]
      == if At(p, column).hour == hour then multiset(rows)[p] else 0
  {
    if rows != [] {
      RowsAtHourCount(rows[1..], hour, column, p);
      assert rows == [rows[0]] + rows[1..];
    }
  }

  /** The filter keeps the log's order: it distributes over concatenation. */
  lemma {:induction false} RowsAtHourConcat(s: seq<Play>, t: seq<Play>, hour: int, column: TimeColumn)
    ensures RowsAtHour(s + t, hour, column) == RowsAtHour(s, hour, column) + RowsAtHour(t, hour, column)
  {
    if s != [] {
      RowsAtHourConcat(s[1..], t, hour, column);
      assert (s + t)[0] == s[0];
      assert (s + t)[1..] == s[1..] + t;
    } else {
      assert s + t == t;
    }
  }

  /** The position of the first row with the given track title. */
  function FirstWithTrack(rows: seq<Play>, track: string): (i: nat)
    requires track in Tracks(rows)
    ensures i < |rows| && rows[i].trackName == track
    ensures forall j :: 0 <= j < i ==> rows[j].trackName != track
  {
    if rows[0].trackName == track then 0
    else
      assert track in Tracks(rows[1..]) by {
        var a :| 0 <= a < |rows| && Tracks(rows)[a] == track;
        assert Tracks(rows[1..])[a - 1] == track;
      }
      1 + FirstWithTrack(rows[1..], track)
  }

  /** A title of the rows of one hour is a title of the whole log. */
  lemma TrackAtHourInLog(rows: seq<Play>, hour: int, column: TimeColumn, t: string)
    requires t in Tracks(RowsAtHour(rows, hour, column))
    ensures t in Tracks(rows)
  {
    var inHour := RowsAtHour(rows, hour, column);
    var a :| 0 <= a < |inHour| && Tracks(inHour)[a] == t;
    assert inHour[a] in rows;
    var b :| 0 <= b < |rows| && rows[b] == inHour[a];
    assert Tracks(rows)[b] == t;
  }

  /** The mode of a non-empty column of titles. */
  ghost predicate MostPlayed(titles: seq<string>, t: string) {
    t in titles && forall u :: u in titles ==> Count(titles, u) <= Count(titles, t)
  }

  /** One pass of the loop of `get_top_songs_for_each_hour`: the most played
      title among the rows of that hour (`index[0]` of its `value_counts()`,
      an `IndexError` when the hour has no rows), paired with the artist of
      the first row of the whole log carrying that title. */
  function TopSongAtHour(rows: seq<Play>, hour: int, column: TimeColumn): (r: Result<Song>)
    ensures r.Err? <==> RowsAtHour(rows, hour, column) == []
    ensures r.Err? ==> r.error == IndexError
    ensures r.Ok? ==> MostPlayed(Tracks(RowsAtHour(rows, hour, column)), r.value.track)
    ensures r.Ok? ==> r.value.track in Tracks(rows)
    ensures r.Ok? ==> r.value.artist == rows[FirstWithTrack(rows, r.value.track)].artistName
  {
    var titles := Tracks(RowsAtHour(rows, hour, column));
    var counts := ValueCounts(titles);
    ValueCountsMode(titles);
    if counts == [] then Err(IndexError)
    else
      var top := counts[0].0;
      TrackAtHourInLog(rows, hour, column, top);
      Ok(Song(top, rows[FirstWithTrack(rows, top)].artistName))
  }

  /** `f"{top_song} {join_word} {artist}"`. */
  function HourLabel(s: Song, joinWord: string): string {
    s.track + " " + joinWord + " " + s.artist
  }

  /** The loop over the selected hours, filling the result dict in order and
      stopping at the first hour without rows. */
  function BuildHourDict(rows: seq<Play>, hours: seq<int>, column: TimeColumn, joinWord: string)
    : (r: Result<Dict<int, string>>)
    ensures r.Err? <==> exists h :: h in hours && RowsAtHour(rows, h, column) == []
    ensures r.Err? ==> r.error == IndexError
    ensures r.Ok? ==> WellFormed(r.value)
    ensures r.Ok? ==> forall h :: h in Keys(r.value) <==> h in hours
    ensures r.Ok? ==> forall h :: h in hours ==>
      TopSongAtHour(rows, h, column).Ok? &&
      Get(r.value, h) == Some(HourLabel(TopSongAtHour(rows, h, column).value, joinWord))
  {
    if hours == [] then Ok([])
    else
      var init := hours[..|hours| - 1];
      var h := hours[|hours| - 1];
      assert hours == init + [h];
      match BuildHourDict(rows, init, column, joinWord)
      case Err(e) =>
        var g :| g in init && RowsAtHour(rows, g, column) == [];
        assert g in hours;
        Err(e)
      case Ok(d) =>
        var t := TopSongAtHour(rows, h, column);
        if t.Err? then
          assert h in hours && RowsAtHour(rows, h, column) == [];
          Err(t.error)
        else
          HourDictStep(rows, hours, column, joinWord, d);
          Ok(Put(d, h, HourLabel(t.value, joinWord)))
  }

  /** One more labelled hour keeps the facts `BuildHourDict` promises. */
  lemma HourDictStep(rows: seq<Play>, hours: seq<int>, column: TimeColumn, joinWord: string,
                     d: Dict<int, string>)
    requires hours != []
    requires WellFormed(d)
    requires forall g :: g in Keys(d) <==> g in hours[..|hours| - 1]
    requires forall g :: g in hours[..|hours| - 1] ==>
      TopSongAtHour(rows, g, column).Ok? &&
      Get(d, g) == Some(HourLabel(TopSongAtHour(rows, g, column).value, joinWord))
    requires TopSongAtHour(rows, hours[|hours| - 1], column).Ok?
    ensures var h := hours[|hours| - 1];
      var e := Put(d, h, HourLabel(TopSongAtHour(rows, h, column).value, joinWord));
      WellFormed(e) &&
      (forall g :: g in hours ==> RowsAtHour(rows, g, column) != []) &&
      (forall g :: g in Keys(e) <==> g in hours) &&
      forall g :: g in hours ==>
        TopSongAtHour(rows, g, column).Ok? &&
        Get(e, g) == Some(HourLabel(TopSongAtHour(rows, g, column).value, joinWord))
  {
    var init, h := hours[..|hours| - 1], hours[|hours| - 1];
    var text := HourLabel(TopSongAtHour(rows, h, column).value, joinWord);
    assert hours == init + [h];
    PutKeys(d, h, text);
    forall g | g in hours
      ensures RowsAtHour(rows, g, column) != []
      ensures TopSongAtHour(rows, g, column).Ok?
      ensures Get(Put(d, h, text), g) == Some(HourLabel(TopSongAtHour(rows, g, column).value, joinWord))
    {
      if g != h {
        assert g in init;
      }
      var t := TopSongAtHour(rows, g, column);
      assert t.Ok?;
      assert RowsAtHour(rows, g, column) != [];
    }
  }

  /** The reordered `plays_per_hour` list (sorted in place in the source) and
      the dict of labels per selected hour. */
  datatype HourSongs = HourSongs(sortedPlays: seq<(int, nat)>, topSongs: Dict<int, string>)

  /** `get_top_songs_for_each_hour`: a stable sort of `plays_per_hour` by
      count, descending, then the label of each of the first `k` hours. */
  function GetTopSongsForEachHour(rows: seq<Play>, playsPerHour: seq<(int, nat)>, k: int,
                                  column: TimeColumn, joinWord: string): (r: Result<HourSongs>)
    ensures r.Err? <==> exists h :: h in Keys(Head(SortByCountDesc(playsPerHour), k)) && RowsAtHour(rows, h, column) == []
    ensures r.Err? ==> r.error == IndexError
    ensures r.Ok? ==> NonIncreasing(r.value.sortedPlays)
    ensures r.Ok? ==> multiset(r.value.sortedPlays) == multiset(playsPerHour)
    ensures r.Ok? ==> forall c :: WithCount(r.value.sortedPlays, c) == WithCount(playsPerHour, c)
    ensures r.Ok? ==> forall h :: h in Keys(r.value.topSongs) <==> h in Keys(Head(r.value.sortedPlays, k))
    ensures r.Ok? ==> forall h :: h in Keys(r.value.topSongs) ==>
      TopSongAtHour(rows, h, column).Ok? &&
      Get(r.value.topSongs, h) == Some(HourLabel(TopSongAtHour(rows, h, column).value, joinWord))
  {
    var sorted := SortByCountDesc(playsPerHour);
    SortByCountDescFacts(playsPerHour);
    var hours := Keys(Head(sorted, k));
    match BuildHourDict(rows, hours, column, joinWord)
    case Err(e) => Err(e)
    case Ok(d) => Ok(HourSongs(sorted, d))
  }
}
