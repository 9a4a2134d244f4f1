/** `Locale.get_attr` (wrapy/lang/locale.py) over the two shipped tables. */
module Locale {
  import opened Wrappers

  /** A locale's instance attributes, by attribute name (with the leading
      underscore the classes use). */
  type Attrs = map<string, string>

  /** `get_attr(name, plural)`: the text stored under `"_" + name`, with an
      `"s"` appended for the plural; an `AttributeError` naming `name` when
      the locale has no such attribute. */
  function GetAttr(attrs: Attrs, name: string, plural: bool): (r: Result<string>)
    ensures r.Ok? <==> "_" + name in attrs
    ensures r.Err? ==> r.error == AttributeError("Attribute '" + name + "' not found")
    ensures r.Ok? && !plural ==> r.value == attrs["_" + name]
  {
    var key := "_" + name;
    if key in attrs then Ok(attrs[key] + (if plural then "s" else ""))
    else Err(AttributeError("Attribute '" + name + "' not found"))
  }

  /** The plural is the singular with exactly one `"s"` added: one character
      longer, with the singular as its prefix. */
  lemma PluralAddsS(attrs: Attrs, name: string)
    requires "_" + name in attrs
    ensures GetAttr(attrs, name, true).value == GetAttr(attrs, name, false).value + "s"
    ensures |GetAttr(attrs, name, true).value| == |GetAttr(attrs, name, false).value| + 1
    ensures GetAttr(attrs, name, false).value <= GetAttr(attrs, name, true).value
  {
  }

  /** The attributes `EnLocale.__init__` sets. */
  const En: Attrs := map[
    "_total_play" := "Total plays",
    "_song_skips" := "Skipped songs",
    "_avg_plays_per_day" := "Average plays per day",
    "_total_play_listened" := "Total time listened",
    "_month" := "Month",
    "_day" := "Day",
    "_hour" := "Hour",
    "_minute" := "Minute",
    "_different_artists_listened" := "Different artists listened",
    "_different_songs_listened" := "Different songs listened",
    "_time_period" := "Time period",
    "_plays_per_weekday_plot_title" := "Plays per weekday",
    "_plays_per_hour_plot_title" := "Plays per hour",
    "_plays_per_month_plot_title" := "Plays per month",
    "_top_artists_card_title" := "Top artists listened to",
    "_top_songs_card_title" := "Top songs listened to",
    "_top_songs_for_top_hours_card_title" := "Top songs listened to for top hours",
    "_play_history_from_top_songs" := "Play history from top {K} songs",
    "_at_time" := "at",
    "_download_from" := "Generate your own with:",
    "_artists_color_coded_from_top_songs" := "Artists color coded from top {K} songs",
    "_play" := "plays",
    "_by" := "by"
  ]

  /** The attributes `EsLocale.__init__` sets: fewer than the English ones. */
  const Es: Attrs := map[
    "_total_play" := "Total de reproducciones",
    "_song_skips" := "Canciones saltadas",
    "_avg_plays_per_day" := "Reproducciones promedio por día",
    "_total_play_listened" := "Tiempo total escuchado",
    "_month" := "Mes",
    "_day" := "Día",
    "_hour" := "Hora",
    "_minute" := "Minuto",
    "_different_artists_listened" := "Artistas diferentes escuchados",
    "_different_songs_listened" := "Canciones diferentes escuchadas",
    "_time_period" := "Periodo de tiempo",
    "_plays_per_weekday_plot_title" := "Reproducciones por día de la semana",
    "_plays_per_hour_plot_title" := "Reproducciones por hora",
    "_plays_per_month_plot_title" := "Reproducciones por mes",
    "_top_songs_card_title" := "Canciones más escuchadas"
  ]

  /** Every text the Spanish locale has, the English one has too. */
  lemma EsKeysInEn()
    ensures Es.Keys <= En.Keys
  {
  }

  /** Asking the Spanish locale for a text only the English one has raises,
      naming the attribute asked for. */
  lemma EsLacksBy()
    ensures GetAttr(Es, "by", false) == Err(AttributeError("Attribute 'by' not found"))
  {
    assert "_" + "by" == "_by";
  }

  lemma EsLacksAtTime()
    ensures GetAttr(Es, "at_time", false) == Err(AttributeError("Attribute 'at_time' not found"))
  {
    assert "_" + "at_time" == "_at_time";
  }

  lemma EsLacksTopArtistsTitle()
    ensures GetAttr(Es, "top_artists_card_title", true).Err?
  {
    assert "_" + "top_artists_card_title" == "_top_artists_card_title";
  }

  /** The same requests succeed on the English locale. */
  lemma EnHasThem()
    ensures GetAttr(En, "by", false) == Ok("by")
    ensures GetAttr(En, "at_time", false) == Ok("at")
  {
    assert "_" + "by" == "_by";
    assert "_" + "at_time" == "_at_time";
  }
}
