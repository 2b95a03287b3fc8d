/**
 * The infinite list of members available for a season
 * (hooks/api/socios/useSociosDisponiblesInfinite.tsx): its cache key, the
 * query function for one page, the next-page rule and the flattening of the
 * loaded pages.
 */
module Infinite {
  import opened Wrappers
  import opened Types
  import opened QueryCache
  import opened Http

  /** The hook's arguments; `limit` defaults to 10. */
  datatype Args = Args(temporadaId: string, search: Option<string>, limit: int)

  function MakeArgs(temporadaId: string, search: Option<string>, limit: int := 10): (a: Args)
    ensures a.temporadaId == temporadaId && a.search == search && a.limit == limit
  {
    Args(temporadaId, search, limit)
  }

  function SearchAtom(search: Option<string>): Atom {
    if search.Some? then Str(search.value) else Undefined
  }

  /** `["socios-disponibles-infinite", temporadaId, search, limit]`. */
  function KeyOf(a: Args): (k: Key)
    ensures |k| == 4 && k[0] == Str("socios-disponibles-infinite")
    ensures k[1] == Str(a.temporadaId) && k[3] == Num(a.limit)
  {
    [Str("socios-disponibles-infinite"), Str(a.temporadaId), SearchAtom(a.search), Num(a.limit)]
  }

  /** Different arguments never share a cache entry. */
  lemma KeyInjective(a: Args, b: Args)
    requires KeyOf(a) == KeyOf(b)
    ensures a == b
  {
    assert KeyOf(a)[1] == KeyOf(b)[1] && KeyOf(a)[2] == KeyOf(b)[2] && KeyOf(a)[3] == KeyOf(b)[3];
  }

  /** `enabled: !!temporadaId`. */
  predicate Enabled(a: Args) {
    a.temporadaId != ""
  }

  /** One page of the response. */
  datatype Page = Page(socios: seq<Socio>, paginacion: Paginacion)

  /** The query parameters of one page request; `busqueda` only for a truthy search. */
  datatype PageParams = PageParams(pagina: int, limite: int, busqueda: Option<string>)

  /** What the query function does for one page: answer at once, or issue a request. */
  datatype PageQuery = Immediate(page: Page) | Fetch(request: Request, params: PageParams)

  /** The page answered without a request when there is no season. */
  function EmptyPage(limit: int): (p: Page)
    ensures p.socios == []
    ensures p.paginacion.totalPaginas == 0 && p.paginacion.totalElementos == 0
    ensures !p.paginacion.tieneSiguientePagina && !p.paginacion.tieneAnteriorPagina
    ensures p.paginacion.paginaActual == 1 && p.paginacion.elementosPorPagina == limit
  {
    Page([], Paginacion(1, 0, 0, limit, false, false))
  }

  /** The query function for page `pageParam`. */
  function QueryFn(a: Args, pageParam: int): (q: PageQuery)
    ensures !Enabled(a) <==> q.Immediate?
    ensures q.Immediate? ==> q.page == EmptyPage(a.limit)
    ensures q.Fetch? ==>
      && q.request == Request(Get, "/socios/disponibles-para-temporada/" + a.temporadaId)
      && q.params.pagina == pageParam && q.params.limite == a.limit
      && (q.params.busqueda.Some? <==> Truthy(a.search))
      && (q.params.busqueda.Some? ==> q.params.busqueda == a.search)
  {
    if a.temporadaId == "" then Immediate(EmptyPage(a.limit))
    else
      Fetch(Request(Get, "/socios/disponibles-para-temporada/" + a.temporadaId),
            PageParams(pageParam, a.limit, if Truthy(a.search) then a.search else None))
  }

  /** `initialPageParam`. */
  const InitialPageParam: int := 1

  /** `getNextPageParam`: the following page number while the server reports one. */
  function NextPageParam(last: Page): (r: Option<int>)
    ensures r.Some? <==> last.paginacion.tieneSiguientePagina
    ensures r.Some? ==> r.value == last.paginacion.paginaActual + 1
  {
    if last.paginacion.tieneSiguientePagina then Some(last.paginacion.paginaActual + 1) else None
  }

  /** `pages.flatMap(page => page.socios)`. */
  function Flatten(pages: seq<Page>): (r: seq<Socio>)
    decreases |pages|
  {
    if pages == [] then [] else Flatten(pages[..|pages| - 1]) + pages[|pages| - 1].socios
  }

  /** Loading one more page appends exactly its members. */
  lemma {:induction false} FlattenAppend(pages: seq<Page>, p: Page)
    ensures Flatten(pages + [p]) == Flatten(pages) + p.socios
  {
    assert (pages + [p])[..|pages|] == pages;
  }

  /** The flattened list concatenates the pages in order: front page first. */
  lemma {:induction false} FlattenCons(p: Page, pages: seq<Page>)
    ensures Flatten([p] + pages) == p.socios + Flatten(pages)
    decreases |pages|
  {
    if pages == [] {
      assert [p] + pages == [p];
      assert Flatten([p]) == Flatten([]) + p.socios;
    } else {
      var init := pages[..|pages| - 1];
      var last := pages[|pages| - 1];
      assert [p] + pages == ([p] + init) + [last];
      assert pages == init + [last];
      FlattenAppend([p] + init, last);
      FlattenCons(p, init);
      FlattenAppend(init, last);
    }
  }

  /** A member is listed exactly when some loaded page holds it. */
  lemma {:induction false} FlattenMembership(pages: seq<Page>, x: Socio)
    ensures x in Flatten(pages) <==> exists i :: 0 <= i < |pages| && x in pages[i].socios
    decreases |pages|
  {
    if pages != [] {
      var init := pages[..|pages| - 1];
      FlattenMembership(init, x);
      if x in Flatten(init) {
        var i :| 0 <= i < |init| && x in init[i].socios;
        assert pages[i] == init[i];
      }
      if exists i :: 0 <= i < |pages| && x in pages[i].socios {
        var i :| 0 <= i < |pages| && x in pages[i].socios;
        if i < |init| {
          assert init[i] == pages[i];
        }
      }
    }
  }

  /** The length of the flattened list is the sum of the page lengths. */
  function TotalLoaded(pages: seq<Page>): nat
    decreases |pages|
  {
    if pages == [] then 0 else TotalLoaded(pages[..|pages| - 1]) + |pages[|pages| - 1].socios|
  }

  lemma {:induction false} FlattenLength(pages: seq<Page>)
    ensures |Flatten(pages)| == TotalLoaded(pages)
    decreases |pages|
  {
    if pages != [] {
      FlattenLength(pages[..|pages| - 1]);
    }
  }

  /** `socios`: the flattened pages, or `[]` before the first page arrives. */
  function AllSocios(data: Option<seq<Page>>): (r: seq<Socio>)
    ensures data.None? ==> r == []
    ensures data.Some? ==> r == Flatten(data.value)
  {
    if data.Some? then Flatten(data.value) else []
  }

  /** `pagination`: the last loaded page's block, or `null`. */
  function LastPagination(data: Option<seq<Page>>): (r: Option<Paginacion>)
    ensures r.Some? <==> data.Some? && |data.value| > 0
    ensures r.Some? ==> r.value == data.value[|data.value| - 1].paginacion
  {
    if data.Some? && |data.value| > 0 then Some(data.value[|data.value| - 1].paginacion) else None
  }
}
