/**
 * The default methods of `CommonTiviTextCreator`: the display strings of the
 * TV-tracking app. Every operation takes the `Services` it calls into as a
 * parameter; the properties are about which resolved pieces appear, in which
 * order and with which separators.
 */
module TextCreator {
  import opened Optional
  import opened Models
  import opened Resources
  import opened Strings

  /** " • ": the separator between the parts of a summary line. */
  const Bullet: string := " \U{2022} "

  /** The non-breaking space between a genre's label and its emoji. */
  const Nbsp: char := '\U{00A0}'

  // ---------------------------------------------------------------------------
  // showTitle

  /**
   * The title, then " (year)" when the show has a first-aired date; the year can
   * be read back from between the parentheses.
   */
  method ShowTitle(svc: Services, show: TiviShow) returns (r: string)
    ensures r == NullableText(show.title) +
      (match show.firstAired
       case None => ""
       case Some(t) => " (" + IntToString(svc.localYear(t)) + ")")
    ensures var title := NullableText(show.title);
      show.firstAired.Some? ==>
        |title| + 3 <= |r| && r[|title|..|title| + 2] == " (" && r[|r| - 1] == ')' &&
        ParseDecimal(r[|title| + 2..|r| - 1]) == svc.localYear(show.firstAired.value)
  {
    var text := new StringBuilder();
    text.AppendNullable(show.title);
    match show.firstAired {
      case Some(firstAired) =>
        var year := svc.localYear(firstAired);
        text.Append(" ");
        text.Append("(");
        text.Append(IntToString(year));
        text.Append(")");
        assert text.text == NullableText(show.title) + " (" + IntToString(year) + ")";
        YearReadsBack(NullableText(show.title), year);
      case None =>
    }
    r := text.text;
  }

  /** The year written after a title reads back from between the parentheses. */
  lemma YearReadsBack(title: string, year: int)
    ensures var r := title + " (" + IntToString(year) + ")";
      |title| + 3 <= |r| && r[|title|..|title| + 2] == " (" && r[|r| - 1] == ')' &&
      ParseDecimal(r[|title| + 2..|r| - 1]) == year
  {
    var r := title + " (" + IntToString(year) + ")";
    assert r[|title| + 2..|r| - 1] == IntToString(year);
    IntToStringRoundTrip(year);
  }

  // ---------------------------------------------------------------------------
  // followedShowEpisodeWatchStatus

  /**
   * `episodeCount - watchedEpisodeCount` in `Int` arithmetic: positive exactly when
   * the true difference fits in an `Int`, and then equal to it.
   */
  function ToWatchQuantity(episodeCount: Int32, watchedEpisodeCount: Int32): (q: Int32)
    requires watchedEpisodeCount < episodeCount
    ensures q > 0 <==> episodeCount - watchedEpisodeCount <= MaxInt
    ensures episodeCount - watchedEpisodeCount <= MaxInt ==> q == episodeCount - watchedEpisodeCount
  {
    Wrap32(episodeCount - watchedEpisodeCount)
  }

  function FollowedShowEpisodeWatchStatus(svc: Services, episodeCount: Int32, watchedEpisodeCount: Int32): (r: string)
    ensures watchedEpisodeCount < episodeCount ==>
      r == svc.getPluralString(FollowedWatchStatsToWatch, ToWatchQuantity(episodeCount, watchedEpisodeCount))
    ensures 0 <= watchedEpisodeCount < episodeCount ==>
      r == svc.getPluralString(FollowedWatchStatsToWatch, episodeCount - watchedEpisodeCount)
    ensures episodeCount <= watchedEpisodeCount && 0 < watchedEpisodeCount ==>
      r == svc.getString(FollowedWatchStatsComplete, [])
    ensures episodeCount <= watchedEpisodeCount <= 0 ==> r == ""
  {
    if watchedEpisodeCount < episodeCount then
      svc.getPluralString(FollowedWatchStatsToWatch, ToWatchQuantity(episodeCount, watchedEpisodeCount))
    else if watchedEpisodeCount > 0 then
      svc.getString(FollowedWatchStatsComplete, [])
    else
      ""
  }

  /** With a negative watched count the quantity can wrap: the plural is asked for Int.MIN_VALUE. */
  lemma WatchStatusQuantityWraps(svc: Services)
    ensures FollowedShowEpisodeWatchStatus(svc, MaxInt, -1) ==
      svc.getPluralString(FollowedWatchStatsToWatch, MinInt)
  {
  }

  // ---------------------------------------------------------------------------
  // seasonEpisodeTitleText, seasonTitle

  /** `season.number!!` and `episode.number!!` become the requires. */
  function SeasonEpisodeTitleText(svc: Services, season: Option<Season>, episode: Option<Episode>): (r: string)
    requires season.Some? && episode.Some? ==> season.value.number.Some? && episode.value.number.Some?
    ensures season.None? || episode.None? ==> r == ""
    ensures season.Some? && episode.Some? ==>
      r == svc.getString(SeasonEpisodeNumber,
                         [IntArg(season.value.number.value), IntArg(episode.value.number.value)])
  {
    if season.Some? && episode.Some? then
      svc.getString(SeasonEpisodeNumber, [IntArg(season.value.number.value), IntArg(episode.value.number.value)])
    else
      ""
  }

  function SeasonTitle(svc: Services, season: Season): (r: string)
    ensures season.title.Some? ==> r == season.title.value
    ensures season.title.None? && season.number.Some? ==>
      r == svc.getString(SeasonTitleFallback, [IntArg(season.number.value)])
    ensures season.title.None? && season.number.None? ==> r == ""
  {
    match season.title
    case Some(title) => title
    case None =>
      match season.number
      case Some(n) => svc.getString(SeasonTitleFallback, [IntArg(n)])
      case None => ""
  }

  // ---------------------------------------------------------------------------
  // seasonSummaryText

  /**
   * One clause appended as `seasonSummaryText` does: the text so far is kept, a separator
   * follows only if that text is non-empty, and the clause comes last.
   */
  function AppendClause(text: string, clause: string): (r: string)
    ensures text <= r
    ensures |r| == |text| + (if text != "" then |Bullet| else 0) + |clause|
  {
    (if text != "" then text + Bullet else text) + clause
  }

  /** The clauses appended one after another, first to last; the text so far is never rewritten. */
  function AppendClauses(text: string, clauses: seq<string>): (r: string)
    ensures text <= r
    ensures clauses == [] ==> r == text
    decreases clauses
  {
    if clauses == [] then text else AppendClauses(AppendClause(text, clauses[0]), clauses[1..])
  }

  /** The clauses after the leading ones that resolved to the empty string. */
  function DropLeadingEmpty(clauses: seq<string>): (r: seq<string>)
    ensures r == [] || r[0] != ""
    ensures forall c :: c in r ==> c in clauses
  {
    if clauses != [] && clauses[0] == "" then DropLeadingEmpty(clauses[1..]) else clauses
  }

  /** The clause of one count: emitted only when the count is above zero. */
  function Clause(svc: Services, key: StringKey, count: Int32): (r: seq<string>)
    ensures |r| == if count > 0 then 1 else 0
    ensures count > 0 ==> r[0] == svc.getString(key, [IntArg(count)])
  {
    if count > 0 then [svc.getString(key, [IntArg(count)])] else []
  }

  /** The emitted clauses, in the fixed order watched, to watch, to air. */
  function SummaryClauses(svc: Services, watched: Int32, toWatch: Int32, toAir: Int32): (r: seq<string>)
    ensures |r| == (if watched > 0 then 1 else 0) + (if toWatch > 0 then 1 else 0) + (if toAir > 0 then 1 else 0)
    ensures watched > 0 ==> r[0] == svc.getString(SeasonSummaryWatched, [IntArg(watched)])
    ensures toWatch > 0 ==> r[if watched > 0 then 1 else 0] == svc.getString(SeasonSummaryToWatch, [IntArg(toWatch)])
    ensures toAir > 0 ==> r[|r| - 1] == svc.getString(SeasonSummaryToAir, [IntArg(toAir)])
  {
    Clause(svc, SeasonSummaryWatched, watched) + Clause(svc, SeasonSummaryToWatch, toWatch) +
    Clause(svc, SeasonSummaryToAir, toAir)
  }

  /** ". " and the "next" phrase around the relative date, present exactly when something is to air on a known date. */
  function NextSuffix(svc: Services, toAir: Int32, nextToAirDate: Option<Instant>): (r: string)
    ensures r != "" <==> toAir > 0 && nextToAirDate.Some?
    ensures r != "" ==> r == ". " + svc.getString(NextPrefix, [TextArg(svc.formatShortRelativeTime(nextToAirDate.value))])
  {
    if toAir > 0 && nextToAirDate.Some? then
      ". " + svc.getString(NextPrefix, [TextArg(svc.formatShortRelativeTime(nextToAirDate.value))])
    else
      ""
  }

  /**
   * What `seasonSummaryText` builds: the clauses appended in order, then the "next" suffix.
   * No count above zero leaves the summary empty; a watched count above zero leads with its clause.
   */
  function SeasonSummaryOf(svc: Services, watched: Int32, toWatch: Int32, toAir: Int32, nextToAirDate: Option<Instant>): (r: string)
    ensures watched <= 0 && toWatch <= 0 && toAir <= 0 ==> r == ""
    ensures watched > 0 ==> svc.getString(SeasonSummaryWatched, [IntArg(watched)]) <= r
  {
    AppendClauses("", SummaryClauses(svc, watched, toWatch, toAir)) + NextSuffix(svc, toAir, nextToAirDate)
  }

  lemma {:induction false} AppendClausesSnoc(text: string, clauses: seq<string>, clause: string)
    ensures AppendClauses(text, clauses + [clause]) == AppendClause(AppendClauses(text, clauses), clause)
    decreases clauses
  {
    if clauses != [] {
      assert (clauses + [clause])[1..] == clauses[1..] + [clause];
      AppendClausesSnoc(AppendClause(text, clauses[0]), clauses[1..], clause);
    }
  }

  /** After non-empty text every clause, even an empty one, is preceded by a separator. */
  lemma {:induction false} AppendClausesAfterText(text: string, clauses: seq<string>)
    requires text != ""
    ensures AppendClauses(text, clauses) == text + (if clauses == [] then "" else Bullet + Join(Bullet, clauses))
    decreases clauses
  {
    if clauses != [] {
      var next := AppendClause(text, clauses[0]);
      assert next == text + Bullet + clauses[0];
      AppendClausesAfterText(next, clauses[1..]);
    }
  }

  /**
   * What the "text is non-empty" check of `seasonSummaryText` amounts to: the clauses are joined by
   * separators, except that clauses which resolved to "" before the first non-empty one
   * leave no separator.
   */
  lemma {:induction false} AppendClausesIsJoin(clauses: seq<string>)
    ensures AppendClauses("", clauses) == Join(Bullet, DropLeadingEmpty(clauses))
  {
    if clauses != [] {
      if clauses[0] == "" {
        AppendClausesIsJoin(clauses[1..]);
      } else {
        assert AppendClause("", clauses[0]) == clauses[0];
        AppendClausesAfterText(clauses[0], clauses[1..]);
        if 1 < |clauses| {
          assert Join(Bullet, clauses) == clauses[0] + (Bullet + Join(Bullet, clauses[1..]));
        }
      }
    }
  }

  /** " • " if the builder already holds text, then the clause. */
  method AppendAfterBullet(text: StringBuilder, clause: string)
    modifies text
    ensures text.text == AppendClause(old(text.text), clause)
  {
    if text.IsNotEmpty() {
      text.Append(Bullet);
    }
    text.Append(clause);
  }

  /**
   * `seasonSummaryText` as the Kotlin code writes it, with a StringBuilder, proved to build
   * `SeasonSummaryOf`. `nextToAirDate` has the Kotlin default `null`, which callers pass as `None`.
   */
  method SeasonSummaryText(svc: Services, watched: Int32, toWatch: Int32, toAir: Int32, nextToAirDate: Option<Instant>)
    returns (r: string)
    ensures r == SeasonSummaryOf(svc, watched, toWatch, toAir, nextToAirDate)
  {
    var text := new StringBuilder();
    ghost var emitted: seq<string> := [];
    if watched > 0 {
      var clause := svc.getString(SeasonSummaryWatched, [IntArg(watched)]);
      text.Append(clause);
      AppendClausesSnoc("", emitted, clause);
      emitted := emitted + [clause];
    }
    assert emitted == Clause(svc, SeasonSummaryWatched, watched);
    assert text.text == AppendClauses("", emitted);
    if toWatch > 0 {
      var clause := svc.getString(SeasonSummaryToWatch, [IntArg(toWatch)]);
      AppendAfterBullet(text, clause);
      AppendClausesSnoc("", emitted, clause);
      emitted := emitted + [clause];
    }
    assert emitted == Clause(svc, SeasonSummaryWatched, watched) + Clause(svc, SeasonSummaryToWatch, toWatch);
    assert text.text == AppendClauses("", emitted);
    if toAir > 0 {
      var clause := svc.getString(SeasonSummaryToAir, [IntArg(toAir)]);
      AppendAfterBullet(text, clause);
      AppendClausesSnoc("", emitted, clause);
      emitted := emitted + [clause];
      assert text.text == AppendClauses("", emitted);
      if nextToAirDate.Some? {
        text.Append(". ");
        text.Append(svc.getString(NextPrefix, [TextArg(svc.formatShortRelativeTime(nextToAirDate.value))]));
      }
    }
    assert emitted == SummaryClauses(svc, watched, toWatch, toAir);
    r := text.text;
  }

  /** The summary for every input: joined clauses (leading empty ones dropped), then the "next" suffix. */
  lemma SeasonSummaryExact(svc: Services, watched: Int32, toWatch: Int32, toAir: Int32, nextToAirDate: Option<Instant>)
    ensures SeasonSummaryOf(svc, watched, toWatch, toAir, nextToAirDate) ==
      Join(Bullet, DropLeadingEmpty(SummaryClauses(svc, watched, toWatch, toAir))) + NextSuffix(svc, toAir, nextToAirDate)
  {
    AppendClausesIsJoin(SummaryClauses(svc, watched, toWatch, toAir));
  }

  /**
   * When every emitted clause resolves to non-empty text, the summary is the clauses joined
   * by " • " and then the suffix: it starts with the first clause and the last clause
   * is followed by the suffix alone.
   */
  lemma SeasonSummaryJoined(svc: Services, watched: Int32, toWatch: Int32, toAir: Int32, nextToAirDate: Option<Instant>)
    requires forall c :: c in SummaryClauses(svc, watched, toWatch, toAir) ==> c != ""
    ensures var clauses := SummaryClauses(svc, watched, toWatch, toAir);
      var r := SeasonSummaryOf(svc, watched, toWatch, toAir, nextToAirDate);
      var joined := Join(Bullet, clauses);
      r == joined + NextSuffix(svc, toAir, nextToAirDate) &&
      (clauses != [] ==> |clauses[0]| <= |r| && r[..|clauses[0]|] == clauses[0] &&
                         |clauses[|clauses| - 1]| <= |joined| &&
                         joined[|joined| - |clauses[|clauses| - 1]|..] == clauses[|clauses| - 1])
  {
    var clauses := SummaryClauses(svc, watched, toWatch, toAir);
    AppendClausesIsJoin(clauses);
    if clauses != [] {
      assert clauses[0] in clauses;
      JoinEnds(Bullet, clauses);
    }
  }

  /**
   * The separator test looks at the text, not at which clauses were emitted: an empty
   * "to watch" text after a watched clause leaves a trailing separator, and an empty
   * watched text leaves none before the "to watch" clause.
   */
  lemma SeasonSummaryEmptyTemplate(svc: Services, watched: Int32, toWatch: Int32)
    requires watched > 0 && toWatch > 0
    ensures var w := svc.getString(SeasonSummaryWatched, [IntArg(watched)]);
      var t := svc.getString(SeasonSummaryToWatch, [IntArg(toWatch)]);
      var r := SeasonSummaryOf(svc, watched, toWatch, 0, None);
      (w != "" && t == "" ==> r == w + Bullet) &&
      (w == "" ==> r == t)
  {
    var clauses := SummaryClauses(svc, watched, toWatch, 0);
    AppendClausesSnoc("", [clauses[0]], clauses[1]);
    assert clauses == [clauses[0]] + [clauses[1]];
  }

  // ---------------------------------------------------------------------------
  // episodeNumberText

  /** `episode.number!!` becomes the requires; " • " and the relative date follow only with a first-aired date. */
  method EpisodeNumberText(svc: Services, episode: Episode) returns (r: string)
    requires episode.number.Some?
    ensures var episodeText := svc.getString(EpisodeNumber, [IntArg(episode.number.value)]);
      r == episodeText +
        (match episode.firstAired
         case None => ""
         case Some(t) => Bullet + svc.formatShortRelativeTime(t))
    ensures var episodeText := svc.getString(EpisodeNumber, [IntArg(episode.number.value)]);
      r[..|episodeText|] == episodeText && (|episodeText| < |r| <==> episode.firstAired.Some?)
  {
    var text := new StringBuilder();
    text.Append(svc.getString(EpisodeNumber, [IntArg(episode.number.value)]));
    match episode.firstAired {
      case Some(firstAired) =>
        text.Append(Bullet);
        text.Append(svc.formatShortRelativeTime(firstAired));
      case None =>
    }
    r := text.text;
  }

  // ---------------------------------------------------------------------------
  // genreLabel, genreContentDescription

  /** Label, non-breaking space, emoji; the label is everything before the first non-breaking space. */
  method GenreLabel(svc: Services, genre: Genre) returns (r: string)
    ensures r == svc.getString(GenreLabelKey(genre), []) + [Nbsp] + svc.emoji(genre)
    ensures var labelText := svc.getString(GenreLabelKey(genre), []);
      Nbsp !in labelText ==> IndexOf(r, Nbsp) == Some(|labelText|)
  {
    var text := new StringBuilder();
    var labelText := svc.getString(GenreLabelKey(genre), []);
    text.Append(labelText);
    text.Append([Nbsp]);
    text.Append(svc.emoji(genre));
    r := text.text;
    if Nbsp !in labelText {
      IndexOfFirst(labelText, Nbsp, svc.emoji(genre));
    }
  }

  /** The resolved label of each genre, in input order. */
  function GenreLabels(svc: Services, genres: seq<Genre>): (labels: seq<string>)
    ensures |labels| == |genres|
    ensures forall i :: 0 <= i < |genres| ==> labels[i] == svc.getString(GenreLabelKey(genres[i]), [])
  {
    if genres == [] then [] else [svc.getString(GenreLabelKey(genres[0]), [])] + GenreLabels(svc, genres[1..])
  }

  /** Null stays null; a list gives its labels joined by ", ". */
  function GenreContentDescription(svc: Services, genres: Option<seq<Genre>>): (r: Option<string>)
    ensures r.None? <==> genres.None?
    ensures genres.Some? ==> r.value == Join(", ", GenreLabels(svc, genres.value))
  {
    match genres
    case None => None
    case Some(gs) => Some(Join(", ", GenreLabels(svc, gs)))
  }

  /**
   * No genres give "", one genre its label alone, and n genres their labels plus
   * exactly n - 1 separators, built left to right.
   */
  lemma GenreContentDescriptionShape(svc: Services, genres: seq<Genre>, genre: Genre)
    ensures GenreContentDescription(svc, Some([])) == Some("")
    ensures |genres| == 1 ==>
      GenreContentDescription(svc, Some(genres)) == Some(svc.getString(GenreLabelKey(genres[0]), []))
    ensures 0 < |genres| ==>
      |GenreContentDescription(svc, Some(genres)).value| == TotalLength(GenreLabels(svc, genres)) + 2 * (|genres| - 1)
    ensures 0 < |genres| ==>
      GenreContentDescription(svc, Some(genres + [genre])).value ==
      GenreContentDescription(svc, Some(genres)).value + ", " + svc.getString(GenreLabelKey(genre), [])
  {
    if 0 < |genres| {
      var labels := GenreLabels(svc, genres);
      JoinLength(", ", labels);
      assert GenreLabels(svc, genres + [genre]) == labels + [svc.getString(GenreLabelKey(genre), [])];
      JoinSnoc(", ", labels, svc.getString(GenreLabelKey(genre), []));
    }
  }

  // ---------------------------------------------------------------------------
  // showStatusText

  /** The five statuses onto the four status keys. */
  function StatusKey(status: ShowStatus): (key: StringKey)
    ensures key in {StatusEnded, StatusActive, StatusInProduction, StatusPlanned}
  {
    match status
    case Canceled | Ended => StatusEnded
    case Returning => StatusActive
    case InProduction => StatusInProduction
    case Planned => StatusPlanned
  }

  /** The status table: CANCELED and ENDED both read as "ended". */
  function ShowStatusText(svc: Services, status: ShowStatus): (r: string)
    ensures status in {Canceled, Ended} ==> r == svc.getString(StatusEnded, [])
    ensures status == Returning ==> r == svc.getString(StatusActive, [])
    ensures status == InProduction ==> r == svc.getString(StatusInProduction, [])
    ensures status == Planned ==> r == svc.getString(StatusPlanned, [])
  {
    svc.getString(StatusKey(status), [])
  }

  /** Two statuses share a key exactly when they are equal or are CANCELED and ENDED. */
  lemma StatusKeyShared(a: ShowStatus, b: ShowStatus)
    ensures StatusKey(a) == StatusKey(b) <==> a == b || {a, b} == {Canceled, Ended}
  {
  }

  /** Every one of the four keys is reached. */
  lemma StatusKeyOnto(key: StringKey)
    requires key in {StatusEnded, StatusActive, StatusInProduction, StatusPlanned}
    ensures exists status :: StatusKey(status) == key
  {
    if key == StatusEnded {
      assert StatusKey(Ended) == key;
    } else if key == StatusActive {
      assert StatusKey(Returning) == key;
    } else if key == StatusInProduction {
      assert StatusKey(InProduction) == key;
    } else {
      assert StatusKey(Planned) == key;
    }
  }

  // ---------------------------------------------------------------------------
  // seasonEpisodeLabel

  /** `toString().padStart(2, '0')`: a '0' before a single digit, anything longer unchanged. */
  function ToSeasonEpisodeString(n: Int32): (s: string)
    ensures 0 <= n < 10 ==> s == ['0'] + IntToString(n)
    ensures !(0 <= n < 10) ==> s == IntToString(n)
  {
    var digits := IntToString(n);
    var padded := PadStart(digits, 2, '0');
    assert 0 <= n < 10 ==> padded == [padded[0]] + padded[1..];
    padded
  }

  function SeasonEpisodeLabel(seasonNumber: Int32, episodeNumber: Int32): (r: string)
    ensures var s, e := |IntToString(seasonNumber)|, |IntToString(episodeNumber)|;
      |r| == 2 + (if s < 2 then 2 else s) + (if e < 2 then 2 else e)
  {
    "S" + ToSeasonEpisodeString(seasonNumber) + "E" + ToSeasonEpisodeString(episodeNumber)
  }

  /** Takes off the padding `ToSeasonEpisodeString` adds. */
  function Unpad(s: string): string {
    if |s| == 2 && s[0] == '0' then s[1..] else s
  }

  /** Reads a season/episode label back into its two numbers. */
  function ParseSeasonEpisodeLabel(text: string): Option<(int, int)> {
    if 0 < |text| && text[0] == 'S' then
      var rest := text[1..];
      match IndexOf(rest, 'E')
      case None => None
      case Some(k) => Some((ParseDecimal(Unpad(rest[..k])), ParseDecimal(Unpad(rest[k + 1..]))))
    else
      None
  }

  lemma UnpadPadded(n: Int32)
    ensures Unpad(ToSeasonEpisodeString(n)) == IntToString(n)
    ensures 'E' !in ToSeasonEpisodeString(n)
  {
    var s := ToSeasonEpisodeString(n);
    assert forall i :: 0 <= i < |s| ==> s[i] == '0' || s[i] == '-' || IsDigit(s[i]);
  }

  /** Every label reads back as the two numbers it was built from. */
  lemma SeasonEpisodeLabelRoundTrip(seasonNumber: Int32, episodeNumber: Int32)
    ensures ParseSeasonEpisodeLabel(SeasonEpisodeLabel(seasonNumber, episodeNumber)) == Some((seasonNumber, episodeNumber))
  {
    var p, q := ToSeasonEpisodeString(seasonNumber), ToSeasonEpisodeString(episodeNumber);
    UnpadPadded(seasonNumber);
    UnpadPadded(episodeNumber);
    ParseLabelParts(p, q);
    IntToStringRoundTrip(seasonNumber);
    IntToStringRoundTrip(episodeNumber);
  }

  /** The parser splits at the first 'E' after the leading 'S'. */
  lemma ParseLabelParts(p: string, q: string)
    requires 'E' !in p
    ensures ParseSeasonEpisodeLabel("S" + p + "E" + q) == Some((ParseDecimal(Unpad(p)), ParseDecimal(Unpad(q))))
  {
    var text := "S" + p + "E" + q;
    assert text[1..] == p + ['E'] + q;
    IndexOfFirst(p, 'E', q);
    assert text[1..][..|p|] == p;
    assert text[1..][|p| + 1..] == q;
  }

  /** Distinct number pairs give distinct labels. */
  lemma SeasonEpisodeLabelInjective(s1: Int32, e1: Int32, s2: Int32, e2: Int32)
    requires SeasonEpisodeLabel(s1, e1) == SeasonEpisodeLabel(s2, e2)
    ensures s1 == s2 && e1 == e2
  {
    SeasonEpisodeLabelRoundTrip(s1, e1);
    SeasonEpisodeLabelRoundTrip(s2, e2);
  }

  /** A single digit gets one '0' in front. */
  lemma SingleDigitPadded(n: Int32)
    requires 0 <= n < 10
    ensures ToSeasonEpisodeString(n) == ['0', DigitChar(n)]
  {
    assert IntToString(n) == [DigitChar(n)];
  }

  /** "S01E03" and "S00E00": single digits are padded. */
  lemma SeasonEpisodeLabelPaddedExamples()
    ensures SeasonEpisodeLabel(1, 3) == "S01E03"
    ensures SeasonEpisodeLabel(0, 0) == "S00E00"
  {
    SingleDigitPadded(0);
    SingleDigitPadded(1);
    SingleDigitPadded(3);
  }

  /** Two decimal digits, the higher one first. */
  lemma TwoDigits(n: Int32)
    requires 10 <= n < 100
    ensures IntToString(n) == [DigitChar(n / 10), DigitChar(n % 10)]
  {
    assert NatToString(n / 10) == [DigitChar(n / 10)];
  }

  /** "S10E09": two digits are kept as they are. */
  lemma SeasonEpisodeLabelTwoDigitExample()
    ensures SeasonEpisodeLabel(10, 9) == "S10E09"
  {
    SingleDigitPadded(9);
    TwoDigits(10);
  }

  /** "S12E345": three digits are not truncated. */
  lemma SeasonEpisodeLabelThreeDigitExample()
    ensures SeasonEpisodeLabel(12, 345) == "S12E345"
  {
    TwoDigits(12);
    TwoDigits(34);
    assert IntToString(345) == IntToString(34) + [DigitChar(5)];
  }

  /** "-5" already has two characters, so it is not padded: "S-5E07". */
  lemma SeasonEpisodeLabelNegativeExample()
    ensures SeasonEpisodeLabel(-5, 7) == "S-5E07"
  {
    assert NatToString(5) == [DigitChar(5)];
    SingleDigitPadded(7);
  }
}
