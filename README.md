# Tivi text creator, modelled in Dafny

Tivi is a TV-show tracking app. `CommonTiviTextCreator` builds the strings the
app displays:

- show titles with the year;
- the "N to watch" and "complete" watch status;
- season titles and "S01E03" labels;
- the season progress summary "watched • to watch • to air. next …";
- episode numbers with their relative air date;
- genre labels and their spoken description;
- show status names.

This project models each of its default methods and proves what pieces each
result holds, in which order and with which separators.

The methods call into services whose behaviour is defined elsewhere. The model
makes each of them a field of the `Services` datatype (module `Resources` in
`models.dfy`), holding an arbitrary total function. So every property proved
holds for every resource table and every date formatter:

- `getString`: `getStringBlocking(key, args…)`.
- `getPluralString`: `getPluralStringBlocking(key, quantity)`.
- `formatShortRelativeTime`: the date formatter.
- `localYear`: the year of an `Instant` in the current time zone.
- `emoji`: `GenreStringer.getEmoji`.

`getGenreLabel(genre)` is represented by the key `GenreLabelKey(genre)`.

Layout:

- `models.dfy`: the `Option` type for Kotlin's nullable types.
  - Kotlin's `Int` as `Int32`, with `Wrap32` for its wrap-around.
  - The entities `TiviShow`, `Season`, `Episode`, `Genre` and `ShowStatus`, reduced to the fields that are read.
  - The resource keys and `Services`.
- `strings.dfy`: the standard-library pieces the text creator relies on.
  - `Int.toString` as `IntToString`, with a reader `ParseDecimal` proved to invert it.
  - `padStart` and `joinToString` (`Join`).
  - `StringBuilder` as a class whose `Append` methods extend its `text`.
- `text_creator.dfy`: the ten operations and the lemmas about them.

Operations that build their result through a `StringBuilder` are methods over a
`StringBuilder` object: `showTitle`, `seasonSummaryText`, `episodeNumberText`
and `genreLabel`. The operations that are `when` expressions or string
templates are functions.

`seasonSummaryText` is specified by the function `SeasonSummaryOf`. It folds
the emitted clauses with `AppendClause`, which applies the check of
`seasonSummaryText` before each clause: " • " is appended only when the text built so far
is non-empty. It does not check whether an earlier clause was emitted.
`AppendClausesIsJoin` characterises this exactly for every input: the clauses
are joined by " • ", except that clauses resolving to "" before the first
non-empty one leave no separator. When every resolved clause is non-empty, the
summary is the plain join (`SeasonSummaryJoined`). An empty template can
therefore leave a trailing " • " (`SeasonSummaryEmptyTemplate`).

`followedShowEpisodeWatchStatus` subtracts two `Int`s, which wraps in 32 bits.
The plural quantity is positive exactly when the true difference fits in an
`Int`. That always holds when the watched count is not negative. With
`episodeCount = Int.MAX_VALUE` and `watchedEpisodeCount = -1`, the plural is
asked for `Int.MIN_VALUE` (`WatchStatusQuantityWraps`).

The code is followed where a plain reading of the behaviour would differ:

- The summary separator depends on the text so far, as above, rather than on
  which clauses were emitted.
- A negative season or episode number is not padded: "-5" already has two
  characters, so the label is "S-5E07".
- A show without a title is written as "null", because that is what
  `StringBuilder.append` does with a null string. The title is nullable in the
  data layer.

Every operation is a function of its inputs and the services, so calling it
twice on the same inputs gives the same result.

## Model

| member | source | states |
|---|---|---|
| `Models.Wrap32` | common/ui/resources/src/commonMain/kotlin/app/tivi/util/TiviTextCreator.kt:58 | `Int` subtraction: the result equals the exact value when it fits, and otherwise that value minus 2^32 (it is congruent modulo 2^32) |
| `Strings.IntToString` | common/ui/resources/src/commonMain/kotlin/app/tivi/util/TiviTextCreator.kt:150 | `toString`: a '-' exactly for negatives, then digits; shorter than 2 exactly for 0..9; no leading '0' when longer |
| `Strings.NatToString` | common/ui/resources/src/commonMain/kotlin/app/tivi/util/TiviTextCreator.kt:150 | the digits of a non-negative `Int`: all decimal digits, one digit exactly below 10, no leading zero |
| `Strings.NatToStringRoundTrip` | common/ui/resources/src/commonMain/kotlin/app/tivi/util/TiviTextCreator.kt:150 | the digits read back give the number |
| `Strings.IntToStringRoundTrip` | common/ui/resources/src/commonMain/kotlin/app/tivi/util/TiviTextCreator.kt:46 | `ParseDecimal` inverts `toString` for every integer |
| `Strings.PadStart` | common/ui/resources/src/commonMain/kotlin/app/tivi/util/TiviTextCreator.kt:150 | `padStart`: length max(width, original); the original is the suffix, so it is never truncated; the rest is pad characters |
| `Strings.Join` | common/ui/resources/src/commonMain/kotlin/app/tivi/util/TiviTextCreator.kt:130 | `joinToString`: no elements give "", one element gives itself with no separator |
| `Strings.JoinSnoc` | common/ui/resources/src/commonMain/kotlin/app/tivi/util/TiviTextCreator.kt:130 | `joinToString` built left to right: one more element adds one separator and the element |
| `Strings.JoinLength` | common/ui/resources/src/commonMain/kotlin/app/tivi/util/TiviTextCreator.kt:130 | n elements are joined with exactly n − 1 separators and nothing else |
| `Strings.JoinEnds` | common/ui/resources/src/commonMain/kotlin/app/tivi/util/TiviTextCreator.kt:130 | a join starts with its first element and ends with its last: no leading or trailing separator |
| `Strings.NullableText` | common/ui/resources/src/commonMain/kotlin/app/tivi/util/TiviTextCreator.kt:39 | `StringBuilder.append` of a nullable string: the text itself, or "null" for a null title |
| `Strings.StringBuilder.constructor` | common/ui/resources/src/commonMain/kotlin/app/tivi/util/TiviTextCreator.kt:38 | `StringBuilder()` starts empty |
| `Strings.StringBuilder.IsNotEmpty` | common/ui/resources/src/commonMain/kotlin/app/tivi/util/TiviTextCreator.kt:93 | `isNotEmpty()` holds exactly when the builder holds at least one character |
| `Strings.StringBuilder.Append` | common/ui/resources/src/commonMain/kotlin/app/tivi/util/TiviTextCreator.kt:90 | `append` extends the text at its end and changes nothing before it |
| `Strings.StringBuilder.AppendNullable` | common/ui/resources/src/commonMain/kotlin/app/tivi/util/TiviTextCreator.kt:39 | `append` of a nullable string extends the text by the string, or by "null" for null |
| `TextCreator.ShowTitle` | common/ui/resources/src/commonMain/kotlin/app/tivi/util/TiviTextCreator.kt:36-49 | the title, then " (" year ")" exactly when `firstAired` is present; the year reads back from between the parentheses |
| `TextCreator.YearReadsBack` | common/ui/resources/src/commonMain/kotlin/app/tivi/util/TiviTextCreator.kt:44-47 | in title + " (" + year + ")", the text between the parentheses reads back as the year |
| `TextCreator.ToWatchQuantity` | common/ui/resources/src/commonMain/kotlin/app/tivi/util/TiviTextCreator.kt:55-58 | the `Int` quantity total − watched is positive exactly when the true difference fits in an `Int`, and then equals it |
| `TextCreator.FollowedShowEpisodeWatchStatus` | common/ui/resources/src/commonMain/kotlin/app/tivi/util/TiviTextCreator.kt:51-64 | branch order: watched < total gives the "to watch" plural for the `Int` quantity total − watched (`ToWatchQuantity`), which is the exact difference when watched ≥ 0; otherwise watched > 0 gives "complete" (so 10, 10 is complete); otherwise "" (so 0, 0 is "") |
| `TextCreator.WatchStatusQuantityWraps` | common/ui/resources/src/commonMain/kotlin/app/tivi/util/TiviTextCreator.kt:55-59 | with total `Int.MAX_VALUE` and watched −1 the plural is asked for `Int.MIN_VALUE` |
| `TextCreator.SeasonEpisodeTitleText` | common/ui/resources/src/commonMain/kotlin/app/tivi/util/TiviTextCreator.kt:66-72 | "" when the season or the episode is null; otherwise the season/episode template with the season number then the episode number, both required non-null |
| `TextCreator.SeasonTitle` | common/ui/resources/src/commonMain/kotlin/app/tivi/util/TiviTextCreator.kt:74-80 | precedence: an explicit title wins; else the "Season N" fallback when a number exists; else "" |
| `TextCreator.AppendClause` | common/ui/resources/src/commonMain/kotlin/app/tivi/util/TiviTextCreator.kt:93-94 | one conditional append: the text so far is kept as a prefix, the separator is added only after non-empty text, then the clause |
| `TextCreator.AppendClauses` | common/ui/resources/src/commonMain/kotlin/app/tivi/util/TiviTextCreator.kt:88-98 | the clauses appended in order never rewrite the text so far, and no clauses leave it unchanged |
| `TextCreator.Clause` | common/ui/resources/src/commonMain/kotlin/app/tivi/util/TiviTextCreator.kt:89-97 | a count contributes its clause exactly when it is above zero, and the clause is its template filled with the count |
| `TextCreator.SummaryClauses` | common/ui/resources/src/commonMain/kotlin/app/tivi/util/TiviTextCreator.kt:89-98 | one clause per count above zero, in the fixed order watched, to watch, to air, each its template filled with its count |
| `TextCreator.NextSuffix` | common/ui/resources/src/commonMain/kotlin/app/tivi/util/TiviTextCreator.kt:96-108 | the ". next …" part is non-empty exactly when toAir > 0 and a next air date is given, and is then ". " and the "next" phrase around the relative date |
| `TextCreator.SeasonSummaryOf` | common/ui/resources/src/commonMain/kotlin/app/tivi/util/TiviTextCreator.kt:82-111 | the summary `seasonSummaryText` builds (default `nextToAirDate` null is `None`): "" when no count is above zero; a watched count above zero leads with its clause |
| `TextCreator.AppendClausesSnoc` | common/ui/resources/src/commonMain/kotlin/app/tivi/util/TiviTextCreator.kt:92-98 | appending one more clause to the fold is one more conditional-separator append |
| `TextCreator.AppendClausesAfterText` | common/ui/resources/src/commonMain/kotlin/app/tivi/util/TiviTextCreator.kt:93-98 | once the text is non-empty, every later clause, even an empty one, gets " • " before it |
| `TextCreator.AppendClausesIsJoin` | common/ui/resources/src/commonMain/kotlin/app/tivi/util/TiviTextCreator.kt:88-98 | the "text is non-empty" check equals joining the clauses with " • " after dropping the leading clauses that resolved to "" |
| `TextCreator.SeasonSummaryText` | common/ui/resources/src/commonMain/kotlin/app/tivi/util/TiviTextCreator.kt:82-111 | the StringBuilder procedure returns `SeasonSummaryOf`: the fold of the emitted clauses in the order watched, to watch, to air, then the "next" suffix |
| `TextCreator.AppendAfterBullet` | common/ui/resources/src/commonMain/kotlin/app/tivi/util/TiviTextCreator.kt:93-94 | the repeated step: " • " only when the builder already holds text, then the clause |
| `TextCreator.SeasonSummaryExact` | common/ui/resources/src/commonMain/kotlin/app/tivi/util/TiviTextCreator.kt:88-110 | for every input: the emitted clauses, leading empty ones dropped, joined by " • ", then the suffix |
| `TextCreator.SeasonSummaryJoined` | common/ui/resources/src/commonMain/kotlin/app/tivi/util/TiviTextCreator.kt:88-110 | with non-empty clauses: exactly the join with " • " then the suffix; it starts with the first clause and the last clause is followed only by the suffix |
| `TextCreator.SeasonSummaryEmptyTemplate` | common/ui/resources/src/commonMain/kotlin/app/tivi/util/TiviTextCreator.kt:92-98 | the check is on the text, not on the emitted clauses: an empty "to watch" text after a watched clause leaves a trailing " • "; an empty watched text leaves none |
| `TextCreator.EpisodeNumberText` | common/ui/resources/src/commonMain/kotlin/app/tivi/util/TiviTextCreator.kt:113-121 | the "Episode N" text (number required non-null), then " • " and the relative date exactly when `firstAired` is present; the episode text is always the prefix |
| `TextCreator.GenreLabel` | common/ui/resources/src/commonMain/kotlin/app/tivi/util/TiviTextCreator.kt:123-127 | label, U+00A0, emoji; the first non-breaking space sits right after the label when the label has none |
| `TextCreator.GenreLabels` | common/ui/resources/src/commonMain/kotlin/app/tivi/util/TiviTextCreator.kt:130-132 | one resolved label per genre, in input order |
| `TextCreator.GenreContentDescription` | common/ui/resources/src/commonMain/kotlin/app/tivi/util/TiviTextCreator.kt:129-133 | null exactly for null; otherwise the labels in input order joined by ", " |
| `TextCreator.GenreContentDescriptionShape` | common/ui/resources/src/commonMain/kotlin/app/tivi/util/TiviTextCreator.kt:129-133 | [] gives ""; a singleton gives its label with no separator; n genres add exactly n − 1 ", "; one more genre appends ", " and its label |
| `TextCreator.StatusKey` | common/ui/resources/src/commonMain/kotlin/app/tivi/util/TiviTextCreator.kt:138-142 | every status maps to one of the four status keys |
| `TextCreator.ShowStatusText` | common/ui/resources/src/commonMain/kotlin/app/tivi/util/TiviTextCreator.kt:138-143 | the table: CANCELED and ENDED → "ended", RETURNING → "active", IN_PRODUCTION → "in production", PLANNED → "planned" |
| `TextCreator.StatusKeyShared` | common/ui/resources/src/commonMain/kotlin/app/tivi/util/TiviTextCreator.kt:138-142 | two statuses share a key exactly when they are equal or are CANCELED and ENDED |
| `TextCreator.StatusKeyOnto` | common/ui/resources/src/commonMain/kotlin/app/tivi/util/TiviTextCreator.kt:138-142 | each of the four keys is the key of some status |
| `TextCreator.ToSeasonEpisodeString` | common/ui/resources/src/commonMain/kotlin/app/tivi/util/TiviTextCreator.kt:150 | 0..9 get one leading '0'; every other value, negatives included, is its `toString` unchanged |
| `TextCreator.SeasonEpisodeLabel` | common/ui/resources/src/commonMain/kotlin/app/tivi/util/TiviTextCreator.kt:145-147 | its length is 2 + max(2, length of toString(s)) + max(2, length of toString(e)) |
| `TextCreator.SingleDigitPadded` | common/ui/resources/src/commonMain/kotlin/app/tivi/util/TiviTextCreator.kt:150 | a single digit d is written "0d" |
| `TextCreator.SeasonEpisodeLabelRoundTrip` | common/ui/resources/src/commonMain/kotlin/app/tivi/util/TiviTextCreator.kt:145-150 | every label, for any two `Int`s, reads back as the two numbers it was built from |
| `TextCreator.SeasonEpisodeLabelInjective` | common/ui/resources/src/commonMain/kotlin/app/tivi/util/TiviTextCreator.kt:145-150 | different number pairs give different labels |
| `TextCreator.SeasonEpisodeLabelPaddedExamples` | common/ui/resources/src/commonMain/kotlin/app/tivi/util/TiviTextCreator.kt:145-150 | (1, 3) gives "S01E03" and (0, 0) gives "S00E00" |
| `TextCreator.SeasonEpisodeLabelTwoDigitExample` | common/ui/resources/src/commonMain/kotlin/app/tivi/util/TiviTextCreator.kt:145-150 | (10, 9) gives "S10E09": two digits are kept as they are |
| `TextCreator.SeasonEpisodeLabelThreeDigitExample` | common/ui/resources/src/commonMain/kotlin/app/tivi/util/TiviTextCreator.kt:145-150 | (12, 345) gives "S12E345": three digits are not truncated |
| `TextCreator.SeasonEpisodeLabelNegativeExample` | common/ui/resources/src/commonMain/kotlin/app/tivi/util/TiviTextCreator.kt:145-150 | (−5, 7) gives "S-5E07": a negative number is not padded |

## Left out

- `airsText`: it is abstract in the interface and implemented per platform, in code that is not part of this model.
- The `expect class TiviTextCreator`: its platform `actual` classes are not part of this model.
- Resource lookup: templates, locale selection and plural rules are arbitrary functions in `Services`. Nothing is assumed about the text they return.
- `getGenreLabel`: it lives in a file that is not part of this model. Its key for a genre is written `GenreLabelKey(genre)`.
- `GenreStringer.getEmoji`: it lives in a file that is not part of this model. It is an arbitrary function in `Services`.
- The genre constants: they are not listed, because the `Genre` enum is not part of this model.
- `formatShortRelativeTime`: it depends on the current instant. It is an arbitrary function of the `Instant`.
- The time-zone and calendar conversion in `showTitle`: it is an arbitrary function from `Instant` to the year.
- The `!!` null checks: they throw at run time. Here they are the `requires` of `SeasonEpisodeTitleText` and `EpisodeNumberText`.
- The blocking nature of the resource calls is not modelled, and `CharSequence` and `String` are both Dafny `string`.
