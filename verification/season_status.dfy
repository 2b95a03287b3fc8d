/**
 * The status banner of components/association/season-status-alert.tsx.
 * It compares instants, not days: the clock reading `now` is a parameter,
 * and a date-only string is the midnight that opens its day.
 */
module SeasonStatus {
  import opened Wrappers
  import opened Types
  import D = Dates

  /** Which banner is rendered: none, "season ended", or "active or future". */
  datatype Banner = NoBanner | Ended | Manageable

  /** `a > b` on `Date` values; an Invalid Date compares false. */
  predicate After(a: Option<D.Instant>, b: Option<D.Instant>) {
    a.Some? && b.Some? && D.InstantBefore(b.value, a.value)
  }

  /** `a >= b`: for two valid instants, the negation of `a < b`. */
  predicate AtOrAfter(a: Option<D.Instant>, b: Option<D.Instant>) {
    a.Some? && b.Some? && !D.InstantBefore(a.value, b.value)
  }

  /** `hasEnded`: the clock is past the midnight that opens the end day. */
  predicate HasEnded(t: Temporada, now: D.Instant) {
    After(Some(now), D.MidnightOf(t.fechaFin))
  }

  predicate HasStarted(t: Temporada, now: D.Instant) {
    AtOrAfter(Some(now), D.MidnightOf(t.fechaInicio))
  }

  predicate IsFuture(t: Temporada, now: D.Instant) {
    After(D.MidnightOf(t.fechaInicio), Some(now))
  }

  /** `SeasonStatusAlert`: the ended test runs first, then active-or-future, else nothing. */
  function BannerFor(season: Option<Temporada>, now: D.Instant): (r: Banner)
    ensures season.None? ==> r == NoBanner
    ensures season.Some? && HasEnded(season.value, now) ==> r == Ended
    ensures r == Ended ==> season.Some? && HasEnded(season.value, now)
    ensures r == Manageable <==>
      (season.Some? && !HasEnded(season.value, now) && (HasStarted(season.value, now) || IsFuture(season.value, now)))
  {
    match season
    case None => NoBanner
    case Some(t) =>
      var hasEnded := HasEnded(t, now);
      var isActive := HasStarted(t, now) && !hasEnded;
      if hasEnded then Ended
      else if isActive || IsFuture(t, now) then Manageable
      else NoBanner
  }

  /**
   * For a present season the final `null` is reached only when the start
   * date does not parse: with a valid start, "not started" means "future".
   */
  lemma NoBannerIff(t: Temporada, now: D.Instant)
    ensures BannerFor(Some(t), now) == NoBanner <==>
      D.ParseDateSafe(t.fechaInicio).None? && !HasEnded(t, now)
  {
  }

  /** A reversed season whose end has passed shows as ended, even before its start. */
  lemma EndedBeatsFuture(t: Temporada, now: D.Instant)
    requires HasEnded(t, now) && IsFuture(t, now)
    ensures BannerFor(Some(t), now) == Ended
  {
  }

  /**
   * On the last day of a season, any time after midnight, the banner says
   * the season has ended while the day-based manage guard, which only asks
   * whether the end date is past, still allows changes.
   */
  lemma LastDayDisagreesWithGuard(t: Temporada, now: D.Instant)
    requires D.ParseDateSafe(t.fechaFin) == Some(now.date) && now.millis > 0
    ensures BannerFor(Some(t), now) == Ended
    ensures !D.IsDatePast(t.fechaFin, now.date)
  {
  }
}
