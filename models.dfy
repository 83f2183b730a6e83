/** Optional values: the model of Kotlin's nullable types (`T?`). */
module Optional {
  datatype Option<+T> = None | Some(value: T)
}

/**
 * The entities of the data layer, reduced to the fields the text creator reads,
 * and Kotlin's 32-bit `Int`.
 */
module Models {
  import opened Optional

  const MinInt: int := -0x8000_0000
  const MaxInt: int := 0x7fff_ffff
  const IntRange: int := 0x1_0000_0000

  /** Kotlin's `Int`: a 32-bit two's-complement integer. */
  type Int32 = x: int | MinInt <= x <= MaxInt

  /** The `Int` that 32-bit arithmetic yields for the exact value `x`: `x` modulo 2^32. */
  function Wrap32(x: int): (r: Int32)
    ensures (x - r) % IntRange == 0
    ensures MinInt <= x <= MaxInt ==> r == x
    ensures MaxInt < x <= MaxInt + IntRange ==> r == x - IntRange
  {
    (x - MinInt) % IntRange + MinInt
  }

  /** A point in time (kotlinx.datetime `Instant`); only ever handed on to the services. */
  datatype Instant = Instant(epochSeconds: int)

  /** `TiviShow`: its title is nullable in the data layer. */
  datatype TiviShow = TiviShow(title: Option<string>, firstAired: Option<Instant>)

  datatype Season = Season(title: Option<string>, number: Option<Int32>)

  datatype Episode = Episode(number: Option<Int32>, firstAired: Option<Instant>)

  /** A genre constant, known by its name; its label key and emoji are looked up elsewhere. */
  datatype Genre = Genre(name: string)

  datatype ShowStatus = Canceled | Ended | Returning | InProduction | Planned
}

/**
 * The collaborators the text creator calls but does not define: the localised
 * string resources, the relative-date formatter, the time-zone year conversion
 * and the genre emoji table. Each one is an arbitrary total function.
 */
module Resources {
  import opened Models

  /** The `Res.string.*` keys the text creator uses; `GenreLabelKey(g)` is `getGenreLabel(g)`. */
  datatype StringKey =
    | EpisodeNumber
    | FollowedWatchStatsComplete
    | NextPrefix
    | SeasonEpisodeNumber
    | SeasonSummaryToAir
    | SeasonSummaryToWatch
    | SeasonSummaryWatched
    | SeasonTitleFallback
    | StatusActive
    | StatusEnded
    | StatusInProduction
    | StatusPlanned
    | GenreLabelKey(genre: Genre)

  /** The `Res.plurals.*` keys the text creator uses. */
  datatype PluralKey = FollowedWatchStatsToWatch

  /** A positional format argument of a string resource. */
  datatype Arg = IntArg(i: int) | TextArg(s: string)

  datatype Services = Services(
    getString: (StringKey, seq<Arg>) -> string,     // getStringBlocking(key, args...)
    getPluralString: (PluralKey, int) -> string,    // getPluralStringBlocking(key, quantity)
    formatShortRelativeTime: Instant -> string,     // dateFormatter.formatShortRelativeTime
    localYear: Instant -> Int32,                    // toLocalDateTime(currentSystemDefault()).year
    emoji: Genre -> string                          // GenreStringer.getEmoji
  )
}
