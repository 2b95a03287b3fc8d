/**
 * The season-membership screen of components/association-management.tsx:
 * automatic season selection, the manage guard, the add/remove handlers,
 * the client-side member filter and the slice pagination over it.
 */
module AssociationManagement {
  import opened Wrappers
  import opened Types
  import opened Lists
  import opened Text
  import opened Toasts
  import D = Dates
  import P = Pagination
  import M = Mutations
  import C = Constants

  const RemovalRefused: string := "No se pueden eliminar socios de temporadas finalizadas"

  // ----- Season selection -----

  /** The season's date range contains today. */
  predicate Current(t: Temporada, today: D.Date) {
    D.IsDateRangeActive(t.fechaInicio, t.fechaFin, today)
  }

  /**
   * The season the descending stable sort by `fechaInicio` puts first: one
   * with the greatest start date, and among those the earliest in the list.
   */
  function LatestIndex(ts: seq<Temporada>): (r: nat)
    requires |ts| > 0
    ensures r < |ts|
    ensures forall j :: 0 <= j < |ts| ==> !LexLess(ts[r].fechaInicio, ts[j].fechaInicio)
    ensures forall j :: 0 <= j < r ==> LexLess(ts[j].fechaInicio, ts[r].fechaInicio)
    decreases |ts|
  {
    if |ts| == 1 then
      LexIrreflexive(ts[0].fechaInicio);
      0
    else
      var init := ts[..|ts| - 1];
      var k := LatestIndex(init);
      var last := |ts| - 1;
      assert forall j :: 0 <= j < last ==> ts[j] == init[j];
      if LexLess(ts[k].fechaInicio, ts[last].fechaInicio) then
        LatestIsLast(ts, k);
        last
      else
        LexIrreflexive(ts[k].fechaInicio);
        LexTotal(ts[k].fechaInicio, ts[last].fechaInicio);
        k
  }

  /** The step of `LatestIndex` where the last season overtakes the best of the others. */
  lemma LatestIsLast(ts: seq<Temporada>, k: nat)
    requires |ts| > 1 && k < |ts| - 1
    requires forall j :: 0 <= j < |ts| - 1 ==> !LexLess(ts[k].fechaInicio, ts[j].fechaInicio)
    requires LexLess(ts[k].fechaInicio, ts[|ts| - 1].fechaInicio)
    ensures forall j :: 0 <= j < |ts| ==> !LexLess(ts[|ts| - 1].fechaInicio, ts[j].fechaInicio)
    ensures forall j :: 0 <= j < |ts| - 1 ==> LexLess(ts[j].fechaInicio, ts[|ts| - 1].fechaInicio)
  {
    var last := ts[|ts| - 1].fechaInicio;
    LexIrreflexive(last);
    forall j | 0 <= j < |ts| - 1
      ensures LexLess(ts[j].fechaInicio, last)
    {
      LexTotal(ts[j].fechaInicio, ts[k].fechaInicio);
      if ts[j].fechaInicio != ts[k].fechaInicio {
        LexTransitive(ts[j].fechaInicio, ts[k].fechaInicio, last);
      }
    }
    forall j | 0 <= j < |ts| ensures !LexLess(last, ts[j].fechaInicio) {
      if j < |ts| - 1 {
        LexAsymmetric(ts[j].fechaInicio, last);
      }
    }
  }

  /**
   * The auto-select effect: the first current season if it has an id;
   * otherwise the latest-starting season if it has an id; otherwise the
   * selection is left as it was.
   */
  function AutoSelect(ts: seq<Temporada>, today: D.Date, current: string): (r: string)
    ensures r == current || exists i :: 0 <= i < |ts| && ts[i].id == Some(r) && r != ""
    ensures ts == [] ==> r == current
  {
    var active := Find(ts, (t: Temporada) => Current(t, today));
    if active.Some? && Truthy(active.value.id) then active.value.id.value
    else if |ts| > 0 then
      var latest := ts[LatestIndex(ts)];
      if Truthy(latest.id) then latest.id.value else current
    else current
  }

  /** The first current season wins, when it has an id. */
  lemma AutoSelectCurrent(ts: seq<Temporada>, today: D.Date, current: string, i: int)
    requires 0 <= i < |ts| && Current(ts[i], today) && Truthy(ts[i].id)
    requires forall j :: 0 <= j < i ==> !Current(ts[j], today)
    ensures AutoSelect(ts, today, current) == ts[i].id.value
  {
    var active := Find(ts, (t: Temporada) => Current(t, today));
    var k :| 0 <= k < |ts| && ts[k] == active.value && Current(ts[k], today)
             && forall j :: 0 <= j < k ==> !Current(ts[j], today);
    assert k == i;
  }

  /**
   * With no current season, the first of the latest-starting seasons is
   * chosen, when it has an id.
   */
  lemma AutoSelectLatest(ts: seq<Temporada>, today: D.Date, current: string, i: int)
    requires forall j :: 0 <= j < |ts| ==> !Current(ts[j], today)
    requires 0 <= i < |ts| && Truthy(ts[i].id)
    requires forall j :: 0 <= j < |ts| ==> !LexLess(ts[i].fechaInicio, ts[j].fechaInicio)
    requires forall j :: 0 <= j < i ==> LexLess(ts[j].fechaInicio, ts[i].fechaInicio)
    ensures AutoSelect(ts, today, current) == ts[i].id.value
  {
    var k := LatestIndex(ts);
  }

  /** When the first current season has no id, the latest one is chosen instead. */
  lemma CurrentWithoutIdFallsThrough(ts: seq<Temporada>, today: D.Date, current: string, i: int)
    requires 0 <= i < |ts| && Current(ts[i], today) && !Truthy(ts[i].id)
    requires forall j :: 0 <= j < i ==> !Current(ts[j], today)
    ensures AutoSelect(ts, today, current) ==
      (var l := ts[LatestIndex(ts)]; if Truthy(l.id) then l.id.value else current)
  {
    var active := Find(ts, (t: Temporada) => Current(t, today));
    var k :| 0 <= k < |ts| && ts[k] == active.value && Current(ts[k], today)
             && forall j :: 0 <= j < k ==> !Current(ts[j], today);
    assert k == i;
  }

  // ----- The selected season -----

  /** `temporadaSeleccionadaObj`: the first season whose id is the selection. */
  function Selected(ts: seq<Temporada>, sel: string): (r: Option<Temporada>)
    ensures r.Some? ==> r.value in ts && r.value.id == Some(sel)
    ensures r.None? <==> forall i :: 0 <= i < |ts| ==> ts[i].id != Some(sel)
  {
    Find(ts, (t: Temporada) => t.id == Some(sel))
  }

  /** `puedeGestionarSocios`: a season is selected and its end date is not past. */
  function CanManage(ts: seq<Temporada>, sel: string, today: D.Date): (r: bool)
    ensures r <==> Selected(ts, sel).Some? && !D.IsDatePast(Selected(ts, sel).value.fechaFin, today)
    ensures r ==> exists i :: 0 <= i < |ts| && ts[i].id == Some(sel) && !D.IsDatePast(ts[i].fechaFin, today)
    ensures (forall i :: 0 <= i < |ts| ==> ts[i].id != Some(sel)) ==> !r
  {
    match Selected(ts, sel)
    case None => false
    case Some(t) => !D.IsDatePast(t.fechaFin, today)
  }

  predicate UniqueIds(ts: seq<Temporada>) {
    forall i, j :: 0 <= i < j < |ts| && ts[i].id.Some? ==> ts[i].id != ts[j].id
  }

  /**
   * With unique ids, the selection can be managed exactly when the season
   * carrying that id has not ended.
   */
  lemma {:induction false} CanManageByIndex(ts: seq<Temporada>, sel: string, today: D.Date, i: int)
    requires UniqueIds(ts)
    requires 0 <= i < |ts| && ts[i].id == Some(sel)
    ensures CanManage(ts, sel, today) <==> !D.IsDatePast(ts[i].fechaFin, today)
  {
    var found := Find(ts, (t: Temporada) => t.id == Some(sel));
    var k :| 0 <= k < |ts| && ts[k] == found.value && ts[k].id == Some(sel)
             && forall j :: 0 <= j < k ==> ts[j].id != Some(sel);
    assert k == i;
  }

  /**
   * With unique ids, the season the screen selects on its own while one is
   * current can be managed: a current season has not ended.
   */
  lemma AutoSelectedCurrentIsManageable(ts: seq<Temporada>, today: D.Date, current: string, i: int)
    requires UniqueIds(ts)
    requires 0 <= i < |ts| && Current(ts[i], today) && Truthy(ts[i].id)
    requires forall j :: 0 <= j < i ==> !Current(ts[j], today)
    ensures CanManage(ts, AutoSelect(ts, today, current), today)
  {
    AutoSelectCurrent(ts, today, current, i);
    D.RangeActiveFacts(ts[i].fechaInicio, ts[i].fechaFin, today);
    var t := Selected(ts, ts[i].id.value).value;
    var k :| 0 <= k < |ts| && ts[k] == t;
  }

  // ----- Handlers -----

  /** `handleAgregarSocioATemporada`: nothing without a selected season. The manage guard is left to the dialog. */
  function AddMember(sel: string, idSocio: string): (r: Option<M.Mutation>)
    ensures r.Some? <==> sel != ""
    ensures r.Some? ==> r.value.AgregarSocioTemporada? && r.value.socioId == idSocio && r.value.temporadaId == sel
  {
    if sel == "" then None else Some(M.AgregarSocioTemporada(idSocio, sel))
  }

  /** What a handler does: an optional toast and an optional mutation. */
  datatype Outcome = Outcome(toast: Option<Toast>, mutation: Option<M.Mutation>)

  /** `handleEliminarAsociacion`: refused with a toast when the season cannot be managed. */
  function RemoveMember(canManage: bool, sel: string, idSocio: string): (r: Outcome)
    ensures !canManage ==> r == Outcome(Some(Failure(RemovalRefused)), None)
    ensures r.mutation.Some? <==> canManage && sel != ""
    ensures r.mutation.Some? ==> r.mutation.value == M.EliminarSocioTemporada(idSocio, sel)
    ensures canManage ==> r.toast.None?
  {
    if !canManage then Outcome(Some(Failure(RemovalRefused)), None)
    else if sel == "" then Outcome(None, None)
    else Outcome(None, Some(M.EliminarSocioTemporada(idSocio, sel)))
  }

  /** A finished season's members cannot be removed. */
  lemma NoRemovalAfterEnd(ts: seq<Temporada>, sel: string, today: D.Date, idSocio: string)
    requires forall i :: 0 <= i < |ts| && ts[i].id == Some(sel) ==> D.IsDatePast(ts[i].fechaFin, today)
    ensures RemoveMember(CanManage(ts, sel, today), sel, idSocio).mutation.None?
  {
  }

  // ----- Filter and pagination -----

  /** The member matches the lower-cased term in its full name, its dni or its email. */
  predicate MatchesTerm(m: SocioTemporada, q: string) {
    || Contains(Lower(m.socio.nombre + " " + m.socio.apellido), q)
    || Contains(Lower(m.socio.dni), q)
    || (Truthy(m.socio.email) && Contains(Lower(m.socio.email.value), q))
  }

  /**
   * `sociosTemporadaFiltrados`: a blank term keeps every member; otherwise
   * the untrimmed term, lower-cased, must match.
   */
  function FilterMembers(ms: seq<SocioTemporada>, term: string): (r: seq<SocioTemporada>)
    ensures SubsequenceOf(r, ms)
    ensures Trim(term) == "" ==> r == ms
    ensures Trim(term) != "" ==> forall m :: m in r <==> m in ms && MatchesTerm(m, Lower(term))
    ensures Trim(term) != "" ==>
      forall m :: multiset(r)[m] == if MatchesTerm(m, Lower(term)) then multiset(ms)[m] else 0
  {
    SubsequenceReflexive(ms);
    if Trim(term) != "" then Filter(ms, (m: SocioTemporada) => MatchesTerm(m, Lower(term))) else ms
  }

  /** The search is not trimmed: a trailing space only matches between the first and last name. */
  lemma TrailingSpaceMatchesFullName(m: SocioTemporada)
    requires m.socio.nombre == "ana" && m.socio.apellido == "lopez"
    ensures MatchesTerm(m, Lower("ana "))
  {
    assert Lower("ana ") == "ana ";
    assert Lower(m.socio.nombre + " " + m.socio.apellido) == "ana lopez";
    assert StartsWith("ana lopez", "ana ");
  }

  /** `slice(start, start + size)` for a non-negative start. */
  function Window<T>(xs: seq<T>, start: int, size: int): (r: seq<T>)
    requires size > 0
    ensures forall x :: x in r ==> x in xs
    ensures start >= 0 ==> |r| <= size
    ensures start >= 0 ==> r == xs[P.Min(start, |xs|)..P.Min(start + size, |xs|)]
  {
    Slice(xs, start, start + size)
  }

  /** `sociosTemporadaPaginados`: the page's window of the filtered list. */
  function PageOf<T>(xs: seq<T>, page: int, perPage: int): (r: seq<T>)
    requires perPage > 0
    ensures forall x :: x in r ==> x in xs
    ensures page >= 1 ==> |r| <= perPage
    ensures page >= 1 ==> r == xs[P.Min((page - 1) * perPage, |xs|)..P.Min((page - 1) * perPage + perPage, |xs|)]
  {
    var start := (page - 1) * perPage;
    assert page >= 1 ==> start >= 0 by {
      if page >= 1 {
        MulNonNegative(page - 1, perPage);
      }
    }
    Window(xs, start, perPage)
  }

  lemma MulNonNegative(a: int, b: int)
    requires a >= 0 && b >= 0
    ensures a * b >= 0
  {
  }

  lemma MulSucc(a: int, k: int)
    ensures (a + 1) * k == a * k + k
  {
  }

  lemma MulMonotone(a: int, b: int, k: int)
    requires a <= b && k >= 0
    ensures a * k <= b * k
  {
  }

  /** The pages `1..m`, in order. */
  function PagesUpTo<T>(xs: seq<T>, perPage: int, m: nat): seq<T>
    requires perPage > 0
  {
    if m == 0 then [] else PagesUpTo(xs, perPage, m - 1) + PageOf(xs, m, perPage)
  }

  /** The first `m` pages are the list's first `m * perPage` members. */
  lemma {:induction false} PagesUpToPrefix<T>(xs: seq<T>, perPage: int, m: nat)
    requires perPage > 0
    ensures PagesUpTo(xs, perPage, m) == xs[..P.Min(m * perPage, |xs|)]
  {
    if m > 0 {
      PagesUpToPrefix(xs, perPage, m - 1);
      var start := (m - 1) * perPage;
      MulSucc(m - 1, perPage);
      MulNonNegative(m - 1, perPage);
      WindowExtendsPrefix(xs, start, perPage);
    }
  }

  /** The window starting where a prefix ends extends that prefix. */
  lemma WindowExtendsPrefix<T>(xs: seq<T>, start: int, size: int)
    requires start >= 0 && size > 0
    ensures xs[..P.Min(start, |xs|)] + Window(xs, start, size) == xs[..P.Min(start + size, |xs|)]
  {
    var a, b := P.Min(start, |xs|), P.Min(start + size, |xs|);
    assert xs[..a] + xs[a..b] == xs[..b];
  }

  /** A page past the last one is empty. */
  lemma PageBeyondLastIsEmpty<T>(xs: seq<T>, page: int, perPage: int)
    requires perPage > 0 && page > P.TotalPages(|xs|, perPage)
    ensures PageOf(xs, page, perPage) == []
  {
    MulMonotone(P.TotalPages(|xs|, perPage), page - 1, perPage);
  }

  /** Read page by page, the pages hold every filtered member exactly once, in order. */
  lemma PagesCoverList<T>(xs: seq<T>, perPage: int)
    requires perPage > 0
    ensures PagesUpTo(xs, perPage, P.TotalPages(|xs|, perPage)) == xs
  {
    PagesUpToPrefix(xs, perPage, P.TotalPages(|xs|, perPage));
  }

  /** The screen's own state. */
  datatype View = View(selected: string, currentPage: int, perPage: int, searchTerm: string)

  function Init(): (v: View)
    ensures v.selected == "" && v.currentPage == 1 && v.searchTerm == ""
    ensures v.perPage == C.DefaultPageSize == 10
  {
    View("", 1, C.DefaultPageSize, "")
  }

  datatype Event =
    | SelectSeason(id: string)
    | ChangeSearch(term: string)
    | ChangePage(page: int)
    | ChangePerPage(perPage: int)

  /** Only a page-size change resets the page; a new search term or season keeps it. */
  function Step(v: View, e: Event): (r: View)
    ensures e.ChangePerPage? ==> r.perPage == e.perPage && r.currentPage == 1
    ensures !e.ChangePerPage? && !e.ChangePage? ==> r.currentPage == v.currentPage && r.perPage == v.perPage
    ensures e.ChangePage? ==> r.currentPage == e.page
    ensures e.ChangeSearch? ==> r == v.(searchTerm := e.term)
    ensures e.SelectSeason? ==> r == v.(selected := e.id)
  {
    match e
    case SelectSeason(id) => v.(selected := id)
    case ChangeSearch(term) => v.(searchTerm := term)
    case ChangePage(p) => v.(currentPage := p)
    case ChangePerPage(n) => v.(perPage := n, currentPage := 1)
  }

  /** The members the list shows for the season's members `ms`. */
  function Shown(v: View, ms: seq<SocioTemporada>): (r: seq<SocioTemporada>)
    requires v.perPage > 0
    ensures v.currentPage >= 1 ==> |r| <= v.perPage
    ensures forall m :: m in r ==> m in ms
  {
    var f := FilterMembers(ms, v.searchTerm);
    SubsequenceMembers(f, ms);
    PageOf(f, v.currentPage, v.perPage)
  }

  /**
   * Narrowing the search keeps the page number, so a page that was in range
   * before can now lie beyond the last page and show nothing.
   */
  lemma NarrowedSearchCanEmptyThePage(v: View, ms: seq<SocioTemporada>, term: string)
    requires v.perPage > 0 && v.currentPage >= 1
    requires v.currentPage > P.TotalPages(|FilterMembers(ms, term)|, v.perPage)
    ensures Shown(Step(v, ChangeSearch(term)), ms) == []
  {
    PageBeyondLastIsEmpty(FilterMembers(ms, term), v.currentPage, v.perPage);
  }
}
