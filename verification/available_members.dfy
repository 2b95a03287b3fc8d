/**
 * The available-members picker of hooks/use-available-members.ts: its
 * `debounce` helper and the state machine formed by the hook's state, its
 * effects and its handlers. A fetch is split in two: the request it issues,
 * and the later `Settle` event that applies the answer.
 */
module AvailableMembers {
  import opened Wrappers
  import opened Types
  import Text
  import C = Constants

  // ---------------------------------------------------------------------------
  // The debounce helper

  /** The helper's closure state: the arguments of the pending invocation, if a timer is armed. */
  datatype Debouncer<A> = Debouncer(pending: Option<A>)

  /** Calling the debounced function clears the armed timer and arms one for the new arguments. */
  function Call<A>(d: Debouncer<A>, a: A): (r: Debouncer<A>)
    ensures r.pending == Some(a)
  {
    Debouncer(Some(a))
  }

  /** `cancel()`. */
  function Cancel<A>(d: Debouncer<A>): (r: Debouncer<A>)
    ensures r.pending == None
  {
    Debouncer(None)
  }

  /** The timer expires: the wrapped function runs with the pending arguments, and nothing stays armed. */
  function Expire<A>(d: Debouncer<A>): (r: (Debouncer<A>, Option<A>))
    ensures r.0.pending == None
    ensures r.1 == d.pending
  {
    (Debouncer(None), d.pending)
  }

  function CallAll<A>(d: Debouncer<A>, args: seq<A>): Debouncer<A>
    decreases |args|
  {
    if args == [] then d else CallAll(Call(d, args[0]), args[1..])
  }

  /** After a burst of calls, the single pending invocation carries the latest arguments. */
  lemma {:induction false} LatestCallWins<A>(d: Debouncer<A>, args: seq<A>)
    requires args != []
    ensures CallAll(d, args).pending == Some(args[|args| - 1])
    ensures Expire(CallAll(d, args)).1 == Some(args[|args| - 1])
    decreases |args|
  {
    if |args| > 1 {
      LatestCallWins(Call(d, args[0]), args[1..]);
      assert args[1..][|args[1..]| - 1] == args[|args| - 1];
    }
  }

  // ---------------------------------------------------------------------------
  // Requests

  /** The query string of one request. */
  datatype Params = Params(page: int, limit: int, search: Option<string>)

  /** `GET /api/socios/disponibles-para-temporada/{idTemporada}?{params}`. */
  datatype Request = Request(path: string, params: Params)

  /** The endpoint of one season's available members. */
  function SeasonPath(idTemporada: string): string {
    "/api/socios/disponibles-para-temporada/" + idTemporada
  }

  /** `page`, the default page size, and `search` only for a term of at least the minimum length. */
  function ParamsFor(busqueda: string, pagina: int): (p: Params)
    ensures p.page == pagina && p.limit == C.DefaultPageSize
    ensures p.search.Some? <==> Text.Utf16Length(busqueda) >= C.MinSearchLength
    ensures p.search.Some? ==> p.search.value == busqueda
  {
    Params(pagina, C.DefaultPageSize,
           if busqueda != "" && Text.Utf16Length(busqueda) >= C.MinSearchLength then Some(busqueda) else None)
  }

  // ---------------------------------------------------------------------------
  // The hook's state

  datatype State = State(
    idTemporada: string,
    termino: string,
    pagina: int,
    socios: seq<Socio>,
    loading: bool,
    paginacion: Option<Paginacion>,
    error: Option<string>,
    timer: Debouncer<string>)

  /**
   * What the machine keeps: the page is positive, the stored term respects
   * the maximum length, and a pending search carries the trimmed term, long
   * enough to search for.
   */
  predicate Valid(s: State) {
    && s.pagina >= 1
    && Text.Utf16Length(s.termino) <= C.MaxSearchLength
    && (s.timer.pending.Some? ==>
          s.timer.pending.value == Text.Trim(s.termino) && Text.Utf16Length(s.timer.pending.value) >= C.MinSearchLength)
  }

  /** The state before any effect has run. */
  function Fresh(idTemporada: string): (s: State)
    ensures Valid(s) && s.socios == [] && s.paginacion.None? && s.error.None?
  {
    State(idTemporada, "", 1, [], false, None, None, Debouncer(None))
  }

  /** `fetchSocios(busqueda, pagina)`, up to the request. Without a season nothing is requested and the results are cleared. */
  function FetchSocios(s: State, busqueda: string, pagina: int): (r: (State, seq<Request>))
    ensures s.idTemporada == "" ==> r.1 == [] && r.0 == s.(socios := [], paginacion := None)
    ensures s.idTemporada != "" ==>
      && r.0 == s.(loading := true, error := None)
      && r.1 == [Request(SeasonPath(s.idTemporada), ParamsFor(busqueda, pagina))]
  {
    if s.idTemporada == "" then (s.(socios := [], paginacion := None), [])
    else
      (s.(loading := true, error := None),
       [Request(SeasonPath(s.idTemporada), ParamsFor(busqueda, pagina))])
  }

  /**
   * The search effect, run whenever the term or the page changes: its
   * cleanup cancels the pending search; then a long enough trimmed term is
   * handed to the debouncer, a shorter non-blank one clears the results, and
   * a blank one fetches the current page at once.
   */
  function SearchEffect(s: State): (r: (State, seq<Request>))
    ensures s.idTemporada == "" ==> r.1 == []
    ensures forall q :: q in r.1 ==> q.path == SeasonPath(s.idTemporada)
    ensures r.0.idTemporada == s.idTemporada
    ensures s.pagina >= 1 && Text.Utf16Length(s.termino) <= C.MaxSearchLength ==> Valid(r.0)
    ensures var t := Text.Trim(s.termino);
      && r.0.termino == s.termino && r.0.pagina == s.pagina
      && (t != "" && Text.Utf16Length(t) >= C.MinSearchLength ==> r.0.timer.pending == Some(t) && r.1 == [])
      && (t != "" && Text.Utf16Length(t) < C.MinSearchLength ==>
            r.1 == [] && r.0 == s.(timer := Debouncer(None), socios := [], paginacion := None))
      && (t == "" ==> r.0.timer.pending.None? && r.1 == FetchSocios(s, "", s.pagina).1)
  {
    var s0 := s.(timer := Cancel(s.timer));
    var t := Text.Trim(s.termino);
    if t != "" then
      if Text.Utf16Length(t) >= C.MinSearchLength then (s0.(timer := Call(s0.timer, t)), [])
      else (s0.(socios := [], paginacion := None), [])
    else FetchSocios(s0, "", s.pagina)
  }

  /** The answer to one request. */
  datatype FetchResult =
    | Loaded(socios: Option<seq<Socio>>, paginacion: Option<Paginacion>)
      /** A non-2xx answer; `body` is `None` when it is not JSON, else the `message` it holds. */
    | NotOk(body: Option<Option<string>>)
      /** A rejected fetch; `message` is `None` when what was thrown is not an `Error`. */
    | Rejected(message: Option<string>)

  /** The message stored in `error` after a failure. */
  function FailureMessage(r: FetchResult): (m: string)
    requires !r.Loaded?
    ensures r.NotOk? && r.body.None? ==> m == "Error desconocido"
    ensures r.NotOk? && r.body.Some? ==> m == (if Truthy(r.body.value) then r.body.value.value else "Error en la API")
    ensures r.Rejected? ==> m == r.message.GetOr("Error desconocido")
  {
    match r
    case NotOk(body) =>
      // A body that is not JSON is replaced by `{ message: 'Error desconocido' }`.
      var msg := body.GetOr(Some("Error desconocido"));
      if Truthy(msg) then msg.value else "Error en la API"
    case Rejected(message) => message.GetOr("Error desconocido")
  }

  /** Applies an answer: a success stores its members and pagination; a failure clears both and records the message. */
  function Apply(s: State, r: FetchResult): (s': State)
    ensures !s'.loading
    ensures s'.idTemporada == s.idTemporada && s'.termino == s.termino && s'.pagina == s.pagina && s'.timer == s.timer
    ensures r.Loaded? ==> s'.socios == r.socios.GetOr([]) && s'.paginacion == r.paginacion && s'.error == s.error
    ensures !r.Loaded? ==> s'.socios == [] && s'.paginacion.None? && s'.error == Some(FailureMessage(r))
  {
    match r
    case Loaded(socios, paginacion) => s.(socios := socios.GetOr([]), paginacion := paginacion, loading := false)
    case _ => s.(error := Some(FailureMessage(r)), socios := [], paginacion := None, loading := false)
  }

  /** With an empty term the search effect fetches the current page at once. */
  lemma BlankSearchEffect(s: State)
    requires s.termino == ""
    ensures SearchEffect(s) == FetchSocios(s.(timer := Cancel(s.timer)), "", s.pagina)
  {
    Text.TrimOfTrimmed(s.termino);
  }

  /** Mounting: the search effect and then the season effect run; with a season, both fetch page 1. */
  function Mount(idTemporada: string): (r: (State, seq<Request>))
    ensures Valid(r.0) && r.0.pagina == 1 && r.0.termino == ""
    ensures idTemporada == "" ==> r.1 == [] && r.0.socios == [] && r.0.paginacion.None? && r.0.error.None?
    ensures idTemporada != "" ==> |r.1| == 2 && r.1[0] == r.1[1] && r.1[0].params == Params(1, C.DefaultPageSize, None)
  {
    var s := Fresh(idTemporada);
    BlankSearchEffect(s);
    var (s1, f1) := SearchEffect(s);
    if idTemporada != "" then
      var (s2, f2) := FetchSocios(s1, "", 1);
      (s2, f1 + f2)
    else (s1.(socios := [], paginacion := None, error := None), f1)
  }

  datatype Event =
    | SetSearchTerm(term: string)
    | SetCurrentPage(page: int)
    | DebounceFires
    | Refetch
    | ClearSearch
    | Settle(result: FetchResult)
      /** The host passes another `idTemporada`. */
    | ChangeSeason(id: string)

  /** `setCurrentPage(p)` refuses pages below 1 and, once the pagination is known, pages past the last. */
  predicate PageRefused(s: State, p: int) {
    p < 1 || (s.paginacion.Some? && p > s.paginacion.value.totalPaginas)
  }

  /** `setSearchTerm(t)`: a term over the maximum length is ignored; any other new term re-runs the search effect. */
  function ChangeTerm(s: State, t: string): (r: (State, seq<Request>))
    ensures s.idTemporada == "" ==> r.1 == []
    ensures r.0.idTemporada == s.idTemporada && r.0.pagina == s.pagina
    ensures Text.Utf16Length(t) > C.MaxSearchLength ==> r == (s, [])
    ensures Text.Utf16Length(t) <= C.MaxSearchLength ==> r.0.termino == t
    ensures Valid(s) ==> Valid(r.0)
  {
    if Text.Utf16Length(t) > C.MaxSearchLength || t == s.termino then (s, [])
    else SearchEffect(s.(termino := t))
  }

  /**
   * `setCurrentPage(p)`: a refused page changes nothing; an accepted one is
   * stored and fetched at once with the trimmed term, and, being a new page,
   * re-runs the search effect.
   */
  function ChangePage(s: State, p: int): (r: (State, seq<Request>))
    ensures s.idTemporada == "" ==> r.1 == []
    ensures r.0.idTemporada == s.idTemporada && r.0.termino == s.termino
    ensures PageRefused(s, p) ==> r == (s, [])
    ensures !PageRefused(s, p) ==> r.0.pagina == p
    ensures !PageRefused(s, p) && s.idTemporada != "" ==>
      |r.1| >= 1 && r.1[0] == Request(SeasonPath(s.idTemporada), ParamsFor(Text.Trim(s.termino), p))
    ensures !PageRefused(s, p) && p != s.pagina && Text.Utf16Length(Text.Trim(s.termino)) >= C.MinSearchLength ==>
      r.0.timer.pending == Some(Text.Trim(s.termino))
    ensures Valid(s) ==> Valid(r.0)
  {
    if PageRefused(s, p) then (s, [])
    else
      var fetched := FetchSocios(s.(pagina := p), Text.Trim(s.termino), p);
      if p != s.pagina then
        var effect := SearchEffect(fetched.0);
        (effect.0, fetched.1 + effect.1)
      else fetched
  }

  /**
   * The debounced search runs: back to page 1 and a request for page 1
   * with the pending term; leaving another page re-runs the search effect,
   * which arms the same search again.
   */
  function FireSearch(s: State): (r: (State, seq<Request>))
    ensures s.idTemporada == "" ==> r.1 == []
    ensures r.0.idTemporada == s.idTemporada && r.0.termino == s.termino
    ensures s.timer.pending.None? ==> r == (s, [])
    ensures s.timer.pending.Some? ==> r.0.pagina == 1
    ensures s.timer.pending.Some? && s.idTemporada != "" ==>
      |r.1| >= 1 && r.1[0] == Request(SeasonPath(s.idTemporada), ParamsFor(s.timer.pending.value, 1))
    ensures Valid(s) && s.timer.pending.Some? && s.pagina != 1 ==> r.0.timer.pending == s.timer.pending
    ensures Valid(s) ==> Valid(r.0)
  {
    var expired := Expire(s.timer);
    if expired.1.None? then (s, [])
    else
      var fetched := FetchSocios(s.(timer := expired.0, pagina := 1), expired.1.value, 1);
      if s.pagina != 1 then
        var effect := SearchEffect(fetched.0);
        (effect.0, fetched.1 + effect.1)
      else fetched
  }

  /** `clearSearch()`: empty term and page 1; the search effect re-runs if either changed. */
  function Clear(s: State): (r: (State, seq<Request>))
    ensures s.idTemporada == "" ==> r.1 == []
    ensures r.0.idTemporada == s.idTemporada && r.0.termino == "" && r.0.pagina == 1
    ensures Valid(s) ==> Valid(r.0) && r.0.timer.pending.None?
  {
    var s1 := s.(termino := "", pagina := 1);
    if s.termino != "" || s.pagina != 1 then SearchEffect(s1) else (s1, [])
  }

  /**
   * The season effect for a season: back to page 1 with an empty term and a
   * fetch of page 1; the search effect then runs once more if the term or
   * the page changed, and, the term being empty, fetches page 1 again. It
   * runs right after the search effect, so with an empty term no search is
   * pending.
   */
  function SeasonEffect(s: State): (r: (State, seq<Request>))
    requires s.idTemporada != ""
    requires s.termino == "" ==> s.timer.pending.None?
    ensures r.0.idTemporada == s.idTemporada
    ensures r.0.pagina == 1 && r.0.termino == "" && r.0.timer.pending.None? && Valid(r.0)
    ensures |r.1| >= 1 && forall q :: q in r.1 ==> q == Request(SeasonPath(s.idTemporada), Params(1, C.DefaultPageSize, None))
  {
    var (s1, f1) := FetchSocios(s.(pagina := 1, termino := ""), "", 1);
    if s.termino != "" || s.pagina != 1 then
      BlankSearchEffect(s1);
      var (s2, f2) := SearchEffect(s1);
      (s2, f1 + f2)
    else (s1, f1)
  }

  /**
   * A new `idTemporada`: `fetchSocios` and the debounced search are rebuilt,
   * so the search effect re-runs (its cleanup cancelling the pending search)
   * and then the season effect runs. With a season, that effect returns to
   * page 1 with an empty term and fetches page 1; without one it clears the
   * results and the error. The same id re-renders nothing.
   */
  function ChangeSeason(s: State, id: string): (r: (State, seq<Request>))
    ensures r.0.idTemporada == id
    ensures id == s.idTemporada ==> r == (s, [])
    ensures forall q :: q in r.1 ==> q.path == SeasonPath(id)
    ensures id != s.idTemporada && id != "" ==>
      && r.0.pagina == 1 && r.0.termino == "" && r.0.timer.pending.None?
      && |r.1| >= 1 && r.1[|r.1| - 1].params == Params(1, C.DefaultPageSize, None)
    ensures id != s.idTemporada && id == "" ==>
      && r.1 == [] && r.0.socios == [] && r.0.paginacion.None? && r.0.error.None?
      && r.0.pagina == s.pagina && r.0.termino == s.termino
    ensures Valid(s) ==> Valid(r.0)
  {
    if id == s.idTemporada then (s, [])
    else
      var (s1, f1) := SearchEffect(s.(idTemporada := id));
      if id != "" then
        var (s2, f2) := SeasonEffect(s1);
        assert f2[|f2| - 1] in f2;
        (s2, f1 + f2)
      else (s1.(socios := [], paginacion := None, error := None), f1)
  }

  /** Mounting is a change from no season to the given one. */
  lemma MountIsSeasonChange(id: string)
    ensures ChangeSeason(Fresh(""), id) == Mount(id)
  {
  }

  /** One event and the effects it causes. */
  function Step(s: State, e: Event): (r: (State, seq<Request>))
    ensures r.0.idTemporada == "" ==> r.1 == []
    ensures e.ChangeSeason? ==> r.0.idTemporada == e.id
    ensures !e.ChangeSeason? ==> r.0.idTemporada == s.idTemporada
    ensures Valid(s) ==> Valid(r.0)
  {
    match e
    case SetSearchTerm(t) => ChangeTerm(s, t)
    case SetCurrentPage(p) => ChangePage(s, p)
    case DebounceFires => FireSearch(s)
    case Refetch => FetchSocios(s, Text.Trim(s.termino), s.pagina)
    case ClearSearch => Clear(s)
    case Settle(result) => (Apply(s, result), [])
    case ChangeSeason(id) => ChangeSeason(s, id)
  }

  // ---------------------------------------------------------------------------
  // Properties of the machine

  function Run(s: State, es: seq<Event>): (State, seq<Request>)
    decreases |es|
  {
    if es == [] then (s, [])
    else
      var (s1, f1) := Step(s, es[0]);
      var (s2, f2) := Run(s1, es[1..]);
      (s2, f1 + f2)
  }

  /** From mounting on, the page never drops below 1 and the stored term never exceeds the maximum length. */
  lemma {:induction false} RunValid(s: State, es: seq<Event>)
    requires Valid(s)
    ensures Valid(Run(s, es).0)
    decreases |es|
  {
    if es != [] {
      RunValid(Step(s, es[0]).0, es[1..]);
    }
  }

  /** Without a season, and until one is passed in, no event issues a request. */
  lemma {:induction false} NoSeasonNoRequests(s: State, es: seq<Event>)
    requires s.idTemporada == ""
    requires forall k :: 0 <= k < |es| ==> !es[k].ChangeSeason? || es[k].id == ""
    ensures Run(s, es).1 == []
    decreases |es|
  {
    if es != [] {
      NoSeasonNoRequests(Step(s, es[0]).0, es[1..]);
    }
  }

  /** A term longer than the maximum is ignored: nothing changes and nothing is requested. */
  lemma LongTermIgnored(s: State, t: string)
    requires Text.Utf16Length(t) > C.MaxSearchLength
    ensures Step(s, SetSearchTerm(t)) == (s, [])
  {
  }

  /** A refused page leaves the state as it was; an accepted one becomes current and is fetched at once. */
  lemma PageGuard(s: State, p: int)
    ensures PageRefused(s, p) ==> Step(s, SetCurrentPage(p)) == (s, [])
    ensures !PageRefused(s, p) ==> Step(s, SetCurrentPage(p)).0.pagina == p
    ensures !PageRefused(s, p) && s.idTemporada != "" ==>
      Step(s, SetCurrentPage(p)).1[0].params == ParamsFor(Text.Trim(s.termino), p)
  {
  }

  /** A non-blank trimmed term below the minimum length clears the results without a request. */
  lemma ShortTermClears(s: State, t: string)
    requires t != s.termino && Text.Utf16Length(t) <= C.MaxSearchLength
    requires Text.Trim(t) != "" && Text.Utf16Length(Text.Trim(t)) < C.MinSearchLength
    ensures var (s', f) := Step(s, SetSearchTerm(t));
      f == [] && s'.socios == [] && s'.paginacion.None? && s'.timer.pending.None? && s'.termino == t
  {
    assert Step(s, SetSearchTerm(t)) == SearchEffect(s.(termino := t));
  }

  /** When the debounced search runs, the page goes back to 1 and page 1 is requested with that term. */
  lemma SettledSearchFetchesFirstPage(s: State)
    requires s.timer.pending.Some? && s.idTemporada != ""
    ensures var (s', f) := Step(s, DebounceFires);
      s'.pagina == 1 && |f| >= 1 && f[0].params == ParamsFor(s.timer.pending.value, 1)
  {
  }

  /** A failed request leaves no members, no pagination and an error message. */
  lemma FailureClearsResults(s: State, r: FetchResult)
    requires !r.Loaded?
    ensures var s' := Step(s, Settle(r)).0;
      s'.socios == [] && s'.paginacion.None? && s'.error.Some? && !s'.loading
  {
  }

  /**
   * While a search term is in force, choosing another page is undone: the
   * page change re-runs the search effect, whose debounced search then
   * returns to page 1 and requests page 1 again.
   */
  lemma PageChangeDuringSearchReverts(s: State, p: int)
    requires Valid(s) && s.idTemporada != "" && s.timer.pending.None?
    requires Text.Utf16Length(Text.Trim(s.termino)) >= C.MinSearchLength
    requires !PageRefused(s, p) && p != s.pagina && p != 1
    ensures ChangePage(s, p).0.pagina == p
    ensures ChangePage(s, p).1[0].params == ParamsFor(Text.Trim(s.termino), p)
    ensures ChangePage(s, p).0.timer.pending == Some(Text.Trim(s.termino))
    ensures FireSearch(ChangePage(s, p).0).0.pagina == 1
    ensures FireSearch(ChangePage(s, p).0).1[0].params == ParamsFor(Text.Trim(s.termino), 1)
  {
  }

  // ---------------------------------------------------------------------------
  // Derived values

  datatype Derived = Derived(hasResults: bool, hasNextPage: bool, hasPreviousPage: bool, totalItems: int, totalPages: int)

  /** The derived flags read the pagination, falling back to `false` and `0` when it is null. */
  function DerivedOf(s: State): (d: Derived)
    ensures d.hasResults <==> |s.socios| > 0
    ensures s.paginacion.None? ==> !d.hasNextPage && !d.hasPreviousPage && d.totalItems == 0 && d.totalPages == 0
    ensures s.paginacion.Some? ==>
      && d.hasNextPage == s.paginacion.value.tieneSiguientePagina
      && d.hasPreviousPage == s.paginacion.value.tieneAnteriorPagina
      && d.totalItems == s.paginacion.value.totalElementos
      && d.totalPages == s.paginacion.value.totalPaginas
  {
    match s.paginacion
    case None => Derived(|s.socios| > 0, false, false, 0, 0)
    case Some(p) => Derived(|s.socios| > 0, p.tieneSiguientePagina, p.tieneAnteriorPagina, p.totalElementos, p.totalPaginas)
  }
}
