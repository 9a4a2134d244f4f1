/** The composite song identifier of `get_top_songs`: the track and artist
    joined by a separator, and the regular expression that splits it again. */
module SongKey {
  import opened Wrappers

  /** A song is identified by its track name together with its artist. */
  datatype Song = Song(track: string, artist: string)

  const Separator: string := "#&&6"

  /** `data[song_column] + "#&&6" + data[artist_column]`. */
  function SongId(s: Song): string {
    s.track + Separator + s.artist
  }

  predicate MatchAt(s: string, pat: string, j: int) {
    0 <= j && j + |pat| <= |s| && s[j..j + |pat|] == pat
  }

  predicate Contains(s: string, pat: string) {
    exists j :: 0 <= j <= |s| && MatchAt(s, pat, j)
  }

  /** The first occurrence of `pat` in `s` at or after index `from`. */
  function FindFrom(s: string, pat: string, from: nat): (r: Option<nat>)
    requires from <= |s|
    ensures r.Some? ==> from <= r.value && MatchAt(s, pat, r.value)
    ensures r.Some? ==> forall j :: from <= j < r.value ==> !MatchAt(s, pat, j)
    ensures r.None? ==> forall j :: from <= j ==> !MatchAt(s, pat, j)
    decreases |s| - from
  {
    if from + |pat| > |s| then None
    else if s[from..from + |pat|] == pat then Some(from)
    else if from == |s| then None
    else FindFrom(s, pat, from + 1)
  }

  function Find(s: string, pat: string): Option<nat> {
    FindFrom(s, pat, 0)
  }

  /** `$` also matches just before a newline that ends the string, so the
      second group leaves such a newline out. */
  function DropFinalNewline(s: string): string {
    if s != [] && s[|s| - 1] == '\n' then s[..|s| - 1] else s
  }

  /** `str.extract(r"^(.*?)#&&6(.*)$")`: the non-greedy first group ends at
      the first separator, and neither group may cross a newline (`.` does not
      match one). `None` stands for the NaN pandas puts in both columns when
      the pattern does not match. */
  function ExtractSong(key: string): Option<Song> {
    match Find(key, Separator)
    case None => None
    case Some(i) =>
      var rest := key[i + |Separator|..];
      if '\n' in key[..i] || '\n' in DropFinalNewline(rest) then None
      else Some(Song(key[..i], DropFinalNewline(rest)))
  }

  /** A song the identifier scheme can carry: no separator in the track name,
      and no newline in either field. */
  predicate Clean(s: Song) {
    !Contains(s.track, Separator) && '\n' !in s.track && '\n' !in s.artist
  }

  /** In `track + "#&&6" + artist` the first separator starts right after
      the track exactly when the track holds no separator of its own. The
      separator starts with the only `#` it contains, so no occurrence can
      straddle the boundary. */
  lemma {:induction false} FirstSeparator(s: Song)
    requires !Contains(s.track, Separator)
    ensures Find(SongId(s), Separator) == Some(|s.track|)
  {
    var key := SongId(s);
    var t := |s.track|;
    assert MatchAt(key, Separator, t) by {
      assert key[t..t + 4] == Separator;
    }
    forall j | 0 <= j < t
      ensures !MatchAt(key, Separator, j)
    {
      if j + 4 <= t {
        assert key[j..j + 4] == s.track[j..j + 4];
        assert !MatchAt(s.track, Separator, j);
      } else {
        assert key[t] == '#';
        assert key[j..j + 4][t - j] == key[t];
        assert Separator[t - j] != '#';
      }
    }
  }

  /** Splitting the identifier gives the song back exactly when the song is
      clean: a separator inside the track name cuts the track short, and a
      newline in either field makes the match fail or loses the newline. */
  lemma {:induction false} SongIdRoundTrip(s: Song)
    ensures ExtractSong(SongId(s)) == Some(s) <==> Clean(s)
  {
    var key := SongId(s);
    if !Contains(s.track, Separator) {
      FirstSeparator(s);
      assert key[..|s.track|] == s.track;
      assert key[|s.track| + 4..] == s.artist;
      if '\n' in s.artist && '\n' !in s.track {
        var a := s.artist;
        if a[|a| - 1] == '\n' {
          assert |DropFinalNewline(a)| < |a|;
        } else {
          assert DropFinalNewline(a) == a;
        }
      }
    } else {
      var j :| 0 <= j <= |s.track| && MatchAt(s.track, Separator, j);
      assert key[j..j + 4] == s.track[j..j + 4];
      assert MatchAt(key, Separator, j);
      var i := Find(key, Separator).value;
      assert i <= j;
      assert |key[..i]| < |s.track|;
    }
  }

  /** On clean songs the identifier is injective: two clean songs with the
      same identifier are the same song. */
  lemma SongIdInjective(a: Song, b: Song)
    requires Clean(a) && Clean(b) && SongId(a) == SongId(b)
    ensures a == b
  {
    SongIdRoundTrip(a);
    SongIdRoundTrip(b);
  }

  /** A track name holding the separator is cut at it, and the remainder
      moves into the artist. */
  lemma SeparatorInTrackSplitsEarly()
    ensures ExtractSong(SongId(Song("a#&&6b", "c"))) == Some(Song("a", "b#&&6c"))
  {
    var key := SongId(Song("a#&&6b", "c"));
    assert key == "a#&&6b#&&6c";
    assert key[0..4][0] == 'a' && Separator[0] == '#';
    assert key[1..5] == Separator;
    assert FindFrom(key, Separator, 1) == Some(1);
    assert Find(key, Separator) == Some(1);
    assert key[..1] == "a";
    assert key[5..] == "b#&&6c";
  }
}
