# spotify-wrapy in Dafny

A model of the aggregation and ranking engine of spotify-wrapy, a tool that
turns a Spotify streaming-history export into a yearly summary. It also
models the small pure helpers around that engine. The export is modelled as
a sequence of `Play` records. Each record has a track, an artist, the
milliseconds played, and two timestamps (`endTime` and `endLocalTime`). A
timestamp is already read in its column's zone, as hour, weekday (Monday = 0),
month and an orderable instant.

What is modelled:

- **Bucket counts** (`generate_plays_to_x_map` and `__increase_key_group`).
  Python dicts are association lists that keep insertion order. The count per
  hour, weekday or month is a fold over the rows, followed by a sort of the
  items by key.
- **Skips and averages.** The number and percentage of skipped plays, the
  plays-per-day average over a fixed 365 days, the number of distinct values
  in a column, and the total listening time split into days, hours and
  minutes.
- **Rankings.** `value_counts().head(k)` for songs and for artists.
  - Songs are identified by `track + "#&&6" + artist` and split back by the
    regular expression `^(.*?)#&&6(.*)$`.
  - The model writes `value_counts` as a count followed by a stable sort by
    count. pandas leaves the order of ties open, so every contract about a
    ranking is stated with the tie-agnostic predicate `Ranking.IsTopK`.
  - `Ranking.TopKTransport` moves such a ranking from the song identifiers
    to the (track, artist) pairs.
- **Busiest hours.** The most played song in each of the busiest hours
  (`get_top_songs_for_each_hour`).
- **Transition graph** (`gen_top_k_graph` up to the drawing). The plays are
  put in time order and kept only for the top-k songs. Every two consecutive
  kept plays make one weighted edge.
- **The older script `wrapy.py`.** The weekday map, with the text column
  parsed first, the unique count and the time split.
- **List splitting and weekday lookup.** Both revisions of the list-splitting
  helper and of the weekday-name lookup (`wrapy/utils.py` and `utils.py`),
  plus the date-range filter.
- **Locale lookup.** The lookup with the `"s"` plural, over the English and
  Spanish tables.
- **Video arithmetic.** The letterbox padding, the clip order and the
  cross-fade weights of the video maker.

Python exceptions are values of `Wrappers.Result`, each tagged with the
exception the source raises. Floats are exact reals.

The older script imports its weekday table from a top-level `constants.py`,
which is not part of this model. It uses the table of `wrapy/constants.py`
(Spanish names, with the spelling `"Sabádo"` kept).

## Model

| member | source | states |
|---|---|---|
| Dicts.Increase | wrapy/core.py:28-31 | The counter of the key goes up by one, starting from 1 when the key is new. Every other key keeps its count. The key set grows by exactly that key, keys stay unique, and the counts' sum grows by one. |
| Dicts.Tally | wrapy/core.py:46-55 | Counting a sequence gives a dict with unique keys. Its keys are exactly the values that occur, each count is the value's number of occurrences, and the counts sum to the length. |
| Buckets.IncreaseKeyGroup | wrapy/core.py:24-33 | Fails with `AssertionError` exactly when the group is not in `groups`. Otherwise it adds one to that key's count in that group and leaves every other key and every other group as it was. |
| Buckets.CountRowsIsTally | wrapy/core.py:46-55 | After the loop over the rows, a requested group holds the count of that group's key over all rows. A group that was not requested stays empty. |
| Buckets.CountRowsUnrequested | wrapy/core.py:44-55 | A kind that is not among the targets is never touched by the loop. |
| Buckets.GeneratePlaysToXMap | wrapy/core.py:36-60 | Fails with `AssertionError` exactly when some target is outside {hour, weekday, month}, before anything is counted. Otherwise all three groups are present and the unrequested ones are empty. |
| Buckets.PlaysToXMapCounts | wrapy/core.py:46-58 | A requested group is strictly ascending by key and lists exactly the observed keys, each with the number of rows that carry it. Keys lie in the field's range (0-23, 0-6, 1-12), and the counts sum to the number of rows. |
| Sorting.SortItemsFacts | wrapy/core.py:57-58 | `sorted(d.items())` of a dict with unique keys is strictly ascending by key and a permutation of the items. |
| Sorting.SortByCountDescFacts | wrapy/core.py:118 | A sort by count with `reverse=True` gives counts that never increase. It is a permutation of the input, and it is stable: the entries that share a count keep their relative order. |
| Ranking.ValueCountsFacts | wrapy/core.py:91 | `value_counts()` lists every distinct value exactly once, with its exact number of occurrences, with counts that never increase. |
| Ranking.TopKIsTopK | wrapy/core.py:91 | `value_counts().head(k)` is an admissible top-k ranking, with `min(k, distinct values)` entries for k >= 0 and a negative k dropping entries from the end. Every value left out occurs no more often than any value kept. |
| Ranking.ValueCountsMode | wrapy/core.py:125 | `index[0]` exists exactly when the column is not empty, and it is a most frequent value. |
| Ranking.TopKTransport | wrapy/core.py:90-96 | A top-k ranking of the images of a sequence under a function with a left inverse becomes a top-k ranking of the sequence itself, once each entry is mapped back. |
| SongKey.FirstSeparator | wrapy/core.py:93 | When the track holds no `"#&&6"`, the first separator in the identifier is the one right after the track. |
| SongKey.SongIdRoundTrip | wrapy/core.py:90-93 | Splitting the identifier returns the original song if and only if the track holds no separator and neither field holds a newline. |
| SongKey.SongIdInjective | wrapy/core.py:90 | Two songs with no separator in the track and no newline in either field, and with the same identifier, are the same song. |
| SongKey.SeparatorInTrackSplitsEarly | wrapy/core.py:90-93 | The track `"a#&&6b"` by `"c"` comes back as track `"a"` by `"b#&&6c"`. |
| Songs.GetTopSongs | wrapy/core.py:82-98 | There are as many entries as `head(k)` keeps of the distinct identifiers, with play counts that never increase. |
| Songs.EntriesAreSplitRanking | wrapy/core.py:93-96 | On rows whose tracks hold no separator and whose fields hold no newline, each entry is its ranked identifier split back into a real song, with that identifier's count. |
| Songs.TopSongsRankSongs | wrapy/core.py:89-98 | On those same rows every entry splits into a real song. The entries form a top-k ranking of the (track, artist) pairs, so two songs that share a title but not an artist are counted apart. |
| Songs.GetTopArtists | wrapy/core.py:101-105 | The result is a top-k ranking of the artist column. |
| Songs.RowsAtHour | wrapy/core.py:124 | The rows kept are exactly those whose timestamp in the chosen column has that hour. |
| Songs.RowsAtHourCount | wrapy/core.py:124 | A row of that hour is kept as many times as it occurs in the log, and a row of any other hour is not kept at all. |
| Songs.RowsAtHourConcat | wrapy/core.py:124 | The filter keeps the log's order: filtering two consecutive stretches of the log and joining the results equals filtering the whole. |
| Songs.FirstWithTrack | wrapy/core.py:126 | The first row of the whole log whose title is the given one. The match is on the title only. |
| Songs.TopSongAtHour | wrapy/core.py:124-126 | Fails with `IndexError` exactly when no row falls in the hour. Otherwise the track is a most played title of that hour, and the artist comes from the first row of the whole log with that title. |
| Songs.HourDictStep | wrapy/core.py:123-128 | Adding the label of one more non-empty hour keeps the dict well formed. Its keys become exactly the hours seen so far, each labelled with its own top song. |
| Songs.BuildHourDict | wrapy/core.py:121-128 | Fails with `IndexError` exactly when some selected hour has no rows. Otherwise there is one key per selected hour, each mapped to `"<track> <join_word> <artist>"` of that hour's top song. |
| Songs.GetTopSongsForEachHour | wrapy/core.py:108-130 | The hour list comes back reordered by count, descending and stably, as a permutation. The dict keys are exactly its first k hours, and it fails exactly when one of them has no rows. |
| Graph.SortByTime | wrapy/core.py:475-476 | The plays come back ordered by `endTime`, as a permutation of the input. |
| Graph.KeepIn | wrapy/core.py:480 | Exactly the plays of the selected songs are kept. |
| Graph.KeepInCount | wrapy/core.py:480 | Each play of a selected song is kept as many times as it was played. Plays of other songs are not kept. |
| Graph.KeepInConcat | wrapy/core.py:480 | The filter keeps the time order: filtering two stretches of plays and joining them equals filtering the whole. |
| Graph.Pairs | wrapy/core.py:482 | Each kept play is paired with the next kept play. The last one has no successor, so m kept plays give m - 1 pairs. |
| Graph.PairsCount | wrapy/core.py:482-488 | The number of times a pair (a, b) occurs equals the number of positions where `a` is directly followed by `b`. |
| Graph.EdgeWeight | wrapy/core.py:478-488 | The weight of edge (a, b) is the number of adjacent positions of the filtered plays that hold a then b. Self-loops are counted. |
| Graph.TotalWeight | wrapy/core.py:480-488 | The weights sum to m - 1 for m >= 1 filtered plays, and to 0 when no play is kept. |
| Graph.NodesAreFilteredSongs | wrapy/core.py:490-494 | The edge endpoints are exactly the filtered songs when there are at least two filtered plays, and there are none otherwise. |
| Graph.UnrankedPlayIsSkipped | wrapy/core.py:480-484 | Inserting a play of an unranked song anywhere leaves every edge and weight unchanged. |
| Graph.SelfLoopAcrossUnranked | wrapy/core.py:480-494 | The plays a, u, a, a with only `a` ranked give the self-loop (a, a) a weight of 2. |
| Graph.GenTopKGraph | wrapy/core.py:472-494 | The plays are time-ordered, the ranking is a top-k ranking of the identifiers, and every edge weight is the adjacency count in the filtered play sequence. |
| Stats.SkipsCount | wrapy/core.py:70 | A play shorter than the tolerance counts as a skip as many times as it occurs. A longer play is never a skip. |
| Stats.ListensCount | wrapy/core.py:77 | A play of at least the tolerance counts as a listen as many times as it occurs. A shorter play is never a listen. |
| Stats.SkipsPartition | wrapy/core.py:70-77 | Every play is a skip (`msPlayed < tolerance`) or a listen (`>= tolerance`), never both. |
| Stats.Percentage | wrapy/core.py:71 | `part / whole * 100` times `whole` equals `100 * part`, and the result lies in [0, 100] when `part <= whole`. |
| Stats.CountSongSkips | wrapy/core.py:69-73 | Fails with `ZeroDivisionError` exactly on an empty log. Otherwise the total is the number of skips and the percentage is their share of all plays, in [0, 100]. |
| Stats.AveragePlaysPerDay | wrapy/core.py:76-79 | The average times 365 equals the number of plays that are not skips, and it is non-negative. |
| Stats.SkipsAndAverageCoverLog | wrapy/core.py:69-79 | The skip total plus 365 times the average equals the number of rows. |
| Stats.SkipsExample | wrapy/core.py:69-79 | Plays of 5000, 20000 and 5000 ms give 2 skips, a share of 200/3 percent, and an average of 1/365. |
| Stats.ComputeUniqueValues | wrapy/core.py:63-66 | The count is the number of distinct values. It is at most the number of rows, and at least 1 exactly when there are rows. |
| Stats.UniqueCountIgnoresOrder | wrapy/core.py:63-66 | Reordering the rows does not change the distinct count. |
| Stats.Decompose | wrapy/core.py:139-146 | Hours < 24 and minutes < 60. Days, hours and minutes, put back together in milliseconds, fall short of the total by less than one minute. |
| Stats.DecomposeUnique | wrapy/core.py:139-146 | Any split with those bounds equals the computed one, so sub-minute milliseconds are truncated, not rounded. |
| Stats.CalculateHumanTotalPlay | wrapy/core.py:133-148 | The same bounds hold for the sum of `msPlayed`. |
| Stats.DecomposeExample | wrapy/core.py:133-148 | 90061000 ms is 1 day, 1 hour and 1 minute; the leftover second is dropped. |
| Legacy.ParseColumn | wrapy.py:21-22 | Fails with `ValueError` exactly when some cell does not parse. Otherwise each cell maps to its parsed timestamp. |
| Legacy.GeneratePlaysDaysOfWeekMap | wrapy.py:16-36 | Fails with `ValueError` exactly on an unparseable cell. Otherwise keys are weekdays in 0..6, strictly ascending and only observed, each with its exact count, and the counts sum to the number of rows. |
| Legacy.ComputeUniqueValues | wrapy.py:102-107 | The count is the number of distinct values. It is at least 1 exactly on a non-empty column, and it is the same for every reordering of the column. |
| Legacy.CalculateHumanTotalPlay | wrapy.py:110-127 | Hours < 24, minutes < 60, and the split undershoots the summed milliseconds by less than a minute. |
| Utils.SeparateDiTuples | wrapy/utils.py:82-88 | Fails with `ValueError` exactly on an empty list. Otherwise it gives two lists of the input's length whose i-th elements are the components of the i-th pair. |
| Utils.MapIntDayToWeekdayName | wrapy/utils.py:44-47 | Returns the map's entry for the day, and fails with `KeyError` exactly when the day is not a key. |
| Utils.FilterDataByDates | wrapy/utils.py:105-117 | A row is kept exactly when its timestamp lies between the two midnights, both ends included. |
| Utils.FilterConcat | wrapy/utils.py:117 | Filtering a concatenation is the concatenation of the filtered parts, so kept rows keep their order. |
| Utils.FilterMultiplicity | wrapy/utils.py:117 | Each in-range row is kept as often as it occurs, and each out-of-range row never. |
| Utils.FilterIdempotent | wrapy/utils.py:117 | Filtering the result again with the same dates changes nothing. |
| Utils.LaterOnEndDayExcluded | wrapy/utils.py:114-117 | A play after midnight opening `end_date` is not kept. |
| LegacyUtils.SeparateDiTuples | utils.py:49-57 | Two lists of the input's length hold the components in order, and zipping them gives back the input. An empty input gives two empty lists. |
| LegacyUtils.RevisionsAgree | utils.py:49-57 | The loop revision and the `zip(*...)` revision give the same lists on every non-empty input. On the empty input the loop gives `([], [])` where the other raises. |
| LegacyUtils.MapIntDayToWeekdayName | utils.py:30-31 | Succeeds exactly for days 0..6, with the name from the weekday table; otherwise it fails with `KeyError`. |
| Locale.GetAttr | wrapy/lang/locale.py:2-6 | Succeeds exactly when `"_" + name` is one of the attributes the locale's `__init__` sets, returning it unchanged in the singular. Otherwise it fails with an `AttributeError` whose message names the requested key. |
| Locale.PluralAddsS | wrapy/lang/locale.py:4 | The plural is the singular plus `"s"`: one character longer, with the singular as a prefix. |
| Locale.EsKeysInEn | wrapy/lang/es.py:4-20 | Every attribute the Spanish locale sets, the English one sets too. |
| Locale.EsLacksBy | wrapy/lang/locale.py:3-6 | Asking the Spanish locale for `by` raises `AttributeError` with the message `Attribute 'by' not found`. |
| Locale.EsLacksAtTime | wrapy/lang/locale.py:3-6 | Asking the Spanish locale for `at_time` raises `AttributeError` with the message `Attribute 'at_time' not found`. |
| Locale.EsLacksTopArtistsTitle | wrapy/lang/locale.py:3-6 | Asking the Spanish locale for the plural of `top_artists_card_title` raises. |
| Locale.EnHasThem | wrapy/lang/en.py:24-30 | The English locale answers `by` and `at_time`. |
| Video.Trunc | wrapy/video/maker.py:25 | `int()` truncates toward zero: it is the floor for non-negative values and the ceiling for negative ones. |
| Video.ScaledSideVanishes | wrapy/video/maker.py:24-25 | With `scale = min(t_dim / dim, t_other / other)`, `int(scale * dim)` is 0 exactly when `t_dim` is 0 or `t_other * dim < other`. |
| Video.ScaledSide | wrapy/video/maker.py:24-25 | One resized side lies between 0 and its target. It equals the target when that side sets the scale, and it is 0 exactly as `Video.ScaledSideVanishes` says. |
| Video.Letterbox | wrapy/video/maker.py:24-32 | For a non-empty image, the resized image fits the target. The borders are non-negative, add up exactly and centre it, with the extra pixel after. One dimension fills the target. |
| Video.PrepareImage | wrapy/video/maker.py:16-32 | Fails with the OpenCV error exactly when the image is empty or a resized side would be zero, that is, when a target is zero or `t_h * w < h` or `t_w * h < w`. Otherwise both resized sides are at least one pixel, and the letterbox facts hold. |
| Video.ThinCardFails | wrapy/video/maker.py:22-27 | A 1000 x 1 card scaled into a 100 x 100 frame gets a zero width, so the resize fails. |
| Video.Make | wrapy/video/maker.py:48-61 | Fails with `IndexError` exactly for zero images. Otherwise there are 2n - 1 clips: image i at position 2i, a fade from image i to image i + 1 between them, and the last image without a fade. |
| Video.Alphas | wrapy/video/maker.py:72-78 | One weight per frame, each `i / transition_frames`, and none for a non-positive frame count. |
| Video.TransitionAlphas | wrapy/video/maker.py:72-77 | The fade has as many frames as whole frames fit in `duration * fps`, and none when that product is below one. Weight i is `i / frames`. |
| Video.AlphasRise | wrapy/video/maker.py:76-78 | The weights start at 0, rise strictly, and stay below 1. |

## Left out

- Plotting and drawing are left out because they are presentation on top of matplotlib, networkx and PIL. This covers `create_polar_graph`, `create_bar_graph`, `create_simple_plot`, the text and title cards, `display_polar_graph`, and the drawing half of `gen_top_k_graph`.
- `generate_n_star_viz` is left out because it uses seeded randomness, trigonometry and image drawing.
- `get_period` and `parse_str_to_date` are left out because they are `strftime`/`strptime` formatting.
- Loading and writing files are left out because they are I/O: `load_streaming_history_data` and `write_text_lines_in_new_text_file`.
- `convert_column_utc_datetime_to_local_time` and the zone database are left out. Timestamps arrive already zoned, and the midnight of a date in the column's zone is a function the caller supplies.
- The dtype `assert` at the top of `filter_data_by_dates` is left out because timestamps here are always zoned.
- `app.py` and the logger are left out because they are the command line, folders and logging.
- The printed line of `compute_unique_values` in `wrapy.py` is left out because it is output only.
- cv2 and moviepy are left out because they are image and video I/O. Images are their sizes, clips are their order, and the frame rate and durations are parameters.
- IEEE floating point is left out: the percentage, the average, the scale and the weights are exact reals, so rounding is not modelled.
- The 64-bit integer sum of `msPlayed` is left out because the model's integers are unbounded, so overflow is not modelled.
- In-place mutations are left out because every value here is immutable. The `song_id` column added to the caller's frame is not modelled, and the list that `plays_per_hour.sort` reorders in place is returned as `sortedPlays`.
- The text-to-timestamp conversion of `wrapy.py` is left out; `parse` is supplied by the caller. The `format` string is not interpreted.
- `get_attr` on an attribute that is not a string is left out because both locale tables hold only strings.
- Locale.GetAttr: the locale is its `__init__` table. `getattr` also finds class-level, inherited and dunder attributes, which the model does not. For example, `_module__` reaches `__module__`, and `_init__` reaches a bound method, whose `+ ""` raises `TypeError`.
- Video.PrepareImage: every `cv2.error` is one error kind, raised by `cvtColor` on an empty image and by `resize` on a zero size. The `None` that `cv2.imread` returns for an unreadable file, and its `AttributeError` at `.shape`, are not modelled because reading files is I/O.
- pandas `value_counts` may order ties in any way. The model picks the order of first occurrence, and every contract about a ranking holds for any tie order.
- `sort_values("endTime")` is not a stable sort. The model picks one time order, and the graph contracts are stated against the order it returns.
- The default timestamp column of `get_top_songs_for_each_hour` (`endTime`) and the column the hours come from are both parameters; nothing ties them together.
- Songs.GetTopSongs: its own contract states only the length and order of the counts. The full top-k statement needs rows whose track holds no `"#&&6"` and whose fields hold no newline, and it is proved in `Songs.TopSongsRankSongs`.
