/**
 * The eight mutation hooks (hooks/api/socios/use{Create,Update,Delete}Socio,
 * useAgregarSocioTemporada, useEliminarSocioTemporada and
 * hooks/api/temporadas/use{Create,Update,Delete}Temporada): the request each
 * sends, and what its `onSuccess` / `onError` does to the query cache and
 * which toast it raises.
 */
module Mutations {
  import opened Wrappers
  import opened QueryCache
  import opened Http
  import opened Toasts
  import C = Constants
  import Text
  import ErrorAdapter
  import QueryHooks

  datatype Mutation =
    | CreateSocio
    | UpdateSocio(id: int)
    | DeleteSocio(socioId: string)
    | AgregarSocioTemporada(socioId: string, temporadaId: string)
    | EliminarSocioTemporada(socioId: string, temporadaId: string)
    | CreateTemporada
    | UpdateTemporada(id: int)
    | DeleteTemporada(id: int)

  /** The request each `mutationFn` sends. */
  function RequestOf(m: Mutation): (r: Request)
    ensures m.CreateSocio? ==> r == Request(Post, "/socios")
    ensures m.DeleteSocio? ==> r == Request(Delete, "/socios/" + m.socioId)
    ensures m.AgregarSocioTemporada? ==> r == Request(Post, "/temporadas/" + m.temporadaId + "/socios")
    ensures m.EliminarSocioTemporada? ==>
      r == Request(Delete, "/temporadas/" + m.temporadaId + "/socios/" + m.socioId)
    ensures m.CreateTemporada? ==> r == Request(Post, "/temporadas")
    ensures m.UpdateSocio? ==> r == Request(Put, "/socios/" + Text.IntToString(m.id))
    ensures m.UpdateTemporada? ==> r == Request(Patch, "/temporadas/" + Text.IntToString(m.id))
    ensures m.DeleteTemporada? ==> r == Request(Delete, "/temporadas/" + Text.IntToString(m.id))
  {
    match m
    case CreateSocio => Request(Post, "/socios")
    case UpdateSocio(id) => Request(Put, "/socios/" + Text.IntToString(id))
    case DeleteSocio(id) => Request(Delete, "/socios/" + id)
    case AgregarSocioTemporada(_, t) => Request(Post, "/temporadas/" + t + "/socios")
    case EliminarSocioTemporada(s, t) => Request(Delete, "/temporadas/" + t + "/socios/" + s)
    case CreateTemporada => Request(Post, "/temporadas")
    case UpdateTemporada(id) => Request(Patch, "/temporadas/" + Text.IntToString(id))
    case DeleteTemporada(id) => Request(Delete, "/temporadas/" + Text.IntToString(id))
  }

  /** The position of a mutation's constructor in the declaration above. */
  function KindIndex(m: Mutation): int {
    match m
    case CreateSocio => 0
    case UpdateSocio(_) => 1
    case DeleteSocio(_) => 2
    case AgregarSocioTemporada(_, _) => 3
    case EliminarSocioTemporada(_, _) => 4
    case CreateTemporada => 5
    case UpdateTemporada(_) => 6
    case DeleteTemporada(_) => 7
  }

  /** No `/` occurs in `s`. */
  predicate SlashFree(s: string) {
    forall i :: 0 <= i < |s| ==> s[i] != '/'
  }

  /** The string ids a mutation interpolates into its path contain no `/`. */
  predicate SegmentIds(m: Mutation) {
    match m
    case DeleteSocio(s) => SlashFree(s)
    case AgregarSocioTemporada(s, t) => SlashFree(s) && SlashFree(t)
    case EliminarSocioTemporada(s, t) => SlashFree(s) && SlashFree(t)
    case _ => true
  }

  /** `a + x + "/" + y` splits back at the first `/` after `a` when `x` has none. */
  lemma SplitAtSlash(a: string, x: string, y: string, x': string, y': string)
    requires SlashFree(x) && SlashFree(x')
    ensures a + x + "/" + y == a + x' + "/" + y' <==> x == x' && y == y'
  {
    var l, l' := a + x + "/" + y, a + x' + "/" + y';
    if |x| < |x'| {
      assert l[|a| + |x|] == '/' != x'[|x|] == l'[|a| + |x|];
    } else if |x'| < |x| {
      assert l'[|a| + |x'|] == '/' != x[|x'|] == l[|a| + |x'|];
    } else {
      assert x == l[|a|..|a| + |x|] && x' == l'[|a|..|a| + |x'|];
      assert y == l[|a| + |x| + 1..] && y' == l'[|a| + |x'| + 1..];
    }
  }

  /** A season path built from a number never names a nested resource. */
  lemma DigitPathIsNotNested(id: int, t: string, s: string)
    ensures "/temporadas/" + Text.IntToString(id) != "/temporadas/" + t + "/socios/" + s
  {
    var n := Text.IntToString(id);
    var l, l' := "/temporadas/" + n, "/temporadas/" + t + "/socios/" + s;
    var k := 12 + |t|;
    assert l'[k] == '/';
    if k < |l| {
      assert l[k] == n[|t|];
      Text.IntToStringChars(id, |t|);
    } else {
      assert |l| < |l'|;
    }
  }

  /** Different hooks send different requests: the verbs, the collections or the path lengths differ. */
  lemma HooksSendDifferentRequests(m: Mutation, m': Mutation)
    requires KindIndex(m) != KindIndex(m')
    ensures RequestOf(m) != RequestOf(m')
  {
    var p, p' := RequestOf(m).path, RequestOf(m').path;
    if m.DeleteTemporada? && m'.EliminarSocioTemporada? {
      DigitPathIsNotNested(m.id, m'.temporadaId, m'.socioId);
    } else if m'.DeleteTemporada? && m.EliminarSocioTemporada? {
      DigitPathIsNotNested(m'.id, m.temporadaId, m.socioId);
    } else if RequestOf(m).verb == RequestOf(m').verb {
      assert p[1] != p'[1] || |p| != |p'|;
    }
  }

  /** Two calls of the same hook with different arguments differ in their path or their body. */
  lemma ArgumentsReachTheRequest(m: Mutation, m': Mutation)
    requires SegmentIds(m) && SegmentIds(m')
    requires KindIndex(m) == KindIndex(m') && m != m'
    ensures RequestOf(m) != RequestOf(m') || SocioIdBody(m) != SocioIdBody(m')
  {
    var p, p' := RequestOf(m).path, RequestOf(m').path;
    match m
    case UpdateSocio(a) =>
      assert p[8..] == Text.IntToString(a) && p'[8..] == Text.IntToString(m'.id);
      Text.IntToStringInjective(a, m'.id);
    case DeleteSocio(a) =>
      assert p[8..] == a && p'[8..] == m'.socioId;
    case AgregarSocioTemporada(s, t) =>
      assert p[12..|p| - 7] == t && p'[12..|p'| - 7] == m'.temporadaId;
    case EliminarSocioTemporada(s, t) =>
      assert p == "/temporadas/" + t + "/" + ("socios/" + s);
      assert p' == "/temporadas/" + m'.temporadaId + "/" + ("socios/" + m'.socioId);
      SplitAtSlash("/temporadas/", t, "socios/" + s, m'.temporadaId, "socios/" + m'.socioId);
      assert s == ("socios/" + s)[7..] && m'.socioId == ("socios/" + m'.socioId)[7..];
    case UpdateTemporada(a) =>
      assert p[12..] == Text.IntToString(a) && p'[12..] == Text.IntToString(m'.id);
      Text.IntToStringInjective(a, m'.id);
    case DeleteTemporada(a) =>
      assert p[12..] == Text.IntToString(a) && p'[12..] == Text.IntToString(m'.id);
      Text.IntToStringInjective(a, m'.id);
    case _ =>
  }

  /**
   * A request together with its body names the mutation that sent it, as long
   * as the string ids are single path segments: the verb and the collection
   * give the hook, and the path and body give its arguments.
   */
  lemma RequestDeterminesMutation(m: Mutation, m': Mutation)
    requires SegmentIds(m) && SegmentIds(m')
    ensures RequestOf(m) == RequestOf(m') && SocioIdBody(m) == SocioIdBody(m') <==> m == m'
  {
    if KindIndex(m) != KindIndex(m') {
      HooksSendDifferentRequests(m, m');
    } else if m != m' {
      ArgumentsReachTheRequest(m, m');
    }
  }

  /** The JSON body `{ socioId }` of the only mutation whose body is built here. */
  function SocioIdBody(m: Mutation): (r: Option<string>)
    ensures r.Some? <==> m.AgregarSocioTemporada?
    ensures r.Some? ==> r.value == m.socioId
  {
    if m.AgregarSocioTemporada? then Some(m.socioId) else None
  }

  /** A successful response: the id of the returned entity and the entity itself. */
  datatype Response<V> = Response(id: Atom, body: V)

  /** The key prefixes each `onSuccess` invalidates. */
  function InvalidatedPrefixes(m: Mutation): seq<Key> {
    match m
    case CreateSocio => [[Str("socios")]]
    case UpdateSocio(_) => [[Str("socios")]]
    case DeleteSocio(_) => [[Str("socios")]]
    case AgregarSocioTemporada(_, t) =>
      [[Str("socios-temporada"), Str(t)], [Str("socios-disponibles"), Str(t)], [Str("socios")]]
    case EliminarSocioTemporada(_, t) =>
      [[Str("socios-temporada"), Str(t)], [Str("socios-disponibles"), Str(t)]]
    case CreateTemporada => [[Str("temporadas")]]
    case UpdateTemporada(_) => [[Str("temporadas")]]
    case DeleteTemporada(_) => [[Str("temporadas")]]
  }

  /** Some invalidated prefix matches `k`. */
  predicate Touched(m: Mutation, k: Key) {
    exists i :: 0 <= i < |InvalidatedPrefixes(m)| && IsPrefix(InvalidatedPrefixes(m)[i], k)
  }

  /** The key `setQueryData` writes on success, if any. */
  function WrittenKey<V>(m: Mutation, resp: Response<V>): Option<Key> {
    match m
    case CreateSocio => Some([Str("socio"), resp.id])
    case UpdateSocio(_) => Some([Str("socio"), resp.id])
    case CreateTemporada => Some([Str("temporada"), resp.id])
    case UpdateTemporada(_) => Some([Str("temporada"), resp.id])
    case DeleteTemporada(_) => Some([Str("temporada"), resp.id])
    case _ => None
  }

  /**
   * The success toast of each mutation: the message of `MENSAJES_EXITO` for
   * the hook, shown 3000 ms after a member deletion, 5000 ms after a season is
   * created or updated, and for the library's default time otherwise.
   */
  function SuccessToastOf(m: Mutation): (t: Toast)
    ensures t.kind == SuccessToast && t.description == None
    ensures m.CreateSocio? ==> t.title == C.SocioCreado
    ensures m.UpdateSocio? ==> t.title == C.SocioActualizado
    ensures m.DeleteSocio? ==> t.title == C.SocioEliminado
    ensures m.AgregarSocioTemporada? ==> t.title == C.AsociacionCreada
    ensures m.EliminarSocioTemporada? ==> t.title == C.AsociacionEliminada
    ensures m.CreateTemporada? ==> t.title == C.TemporadaCreada
    ensures m.UpdateTemporada? ==> t.title == C.TemporadaActualizada
    ensures m.DeleteTemporada? ==> t.title == C.TemporadaEliminada
    ensures t.duration == Some(3000) <==> m.DeleteSocio?
    ensures t.duration == Some(5000) <==> m.CreateTemporada? || m.UpdateTemporada?
    ensures t.duration.None? <==> !(m.DeleteSocio? || m.CreateTemporada? || m.UpdateTemporada?)
  {
    match m
    case CreateSocio => Success(C.SocioCreado)
    case UpdateSocio(_) => Success(C.SocioActualizado)
    case DeleteSocio(_) => Success(C.SocioEliminado, Some(3000))
    case AgregarSocioTemporada(_, _) => Success(C.AsociacionCreada)
    case EliminarSocioTemporada(_, _) => Success(C.AsociacionEliminada)
    case CreateTemporada => Success(C.TemporadaCreada, Some(5000))
    case UpdateTemporada(_) => Success(C.TemporadaActualizada, Some(5000))
    case DeleteTemporada(_) => Success(C.TemporadaEliminada)
  }

  /** The success message tells the hooks apart: two mutations share it exactly when they are the same hook. */
  lemma SuccessTitleIdentifiesHook(m: Mutation, m': Mutation)
    ensures SuccessToastOf(m).title == SuccessToastOf(m').title <==> KindIndex(m) == KindIndex(m')
  {
    var a, b := SuccessToastOf(m).title, SuccessToastOf(m').title;
    if KindIndex(m) != KindIndex(m') {
      assert |a| != |b| || a[6] != b[6] || a[14] != b[14];
    }
  }

  datatype Settled<V> = Settled(cache: Cache<V>, toast: Toast)

  /** The cache `onSuccess` leaves: `setQueryData` first, then the invalidations in order. */
  function SuccessCache<V>(m: Mutation, c: Cache<V>, resp: Response<V>): Cache<V> {
    match m
    case CreateSocio => Invalidate(SetQueryData(c, [Str("socio"), resp.id], resp.body), [Str("socios")])
    case UpdateSocio(_) => Invalidate(SetQueryData(c, [Str("socio"), resp.id], resp.body), [Str("socios")])
    case DeleteSocio(_) => Invalidate(c, [Str("socios")])
    case AgregarSocioTemporada(_, t) =>
      Invalidate(Invalidate(Invalidate(c, [Str("socios-temporada"), Str(t)]),
                            [Str("socios-disponibles"), Str(t)]),
                 [Str("socios")])
    case EliminarSocioTemporada(_, t) =>
      Invalidate(Invalidate(c, [Str("socios-temporada"), Str(t)]), [Str("socios-disponibles"), Str(t)])
    case CreateTemporada => Invalidate(SetQueryData(c, [Str("temporada"), resp.id], resp.body), [Str("temporadas")])
    case UpdateTemporada(_) => Invalidate(SetQueryData(c, [Str("temporada"), resp.id], resp.body), [Str("temporadas")])
    case DeleteTemporada(_) => Invalidate(SetQueryData(c, [Str("temporada"), resp.id], resp.body), [Str("temporadas")])
  }

  /** The written entry is fresh: no invalidated prefix matches it. */
  lemma SuccessCacheWrites<V>(m: Mutation, c: Cache<V>, resp: Response<V>)
    ensures WrittenKey(m, resp).Some? ==>
      && SuccessCache(m, c, resp).Keys == c.Keys + {WrittenKey(m, resp).value}
      && SuccessCache(m, c, resp)[WrittenKey(m, resp).value] == Entry(resp.body, false)
    ensures WrittenKey(m, resp).None? ==> SuccessCache(m, c, resp).Keys == c.Keys
  {
    if WrittenKey(m, resp).Some? {
      assert WrittenKey(m, resp).value[..1][0] != InvalidatedPrefixes(m)[0][0];
    }
  }

  /** Every other entry keeps its value and turns stale exactly when an invalidated prefix matches it. */
  lemma SuccessCacheMarks<V>(m: Mutation, c: Cache<V>, resp: Response<V>)
    ensures forall k :: k in c && Some(k) != WrittenKey(m, resp) ==>
      && SuccessCache(m, c, resp)[k].value == c[k].value
      && (SuccessCache(m, c, resp)[k].stale <==> c[k].stale || Touched(m, k))
  {
    forall k | k in c && Some(k) != WrittenKey(m, resp)
      ensures SuccessCache(m, c, resp)[k].value == c[k].value
      ensures SuccessCache(m, c, resp)[k].stale <==> c[k].stale || Touched(m, k)
    {
      TouchedByCases(m, k);
    }
  }

  /** `onSuccess`, as the source writes it: cache writes and invalidations in order. */
  function OnSuccess<V>(m: Mutation, c: Cache<V>, resp: Response<V>): (r: Settled<V>)
    ensures r.toast == SuccessToastOf(m)
    ensures WrittenKey(m, resp).Some? ==>
      && r.cache.Keys == c.Keys + {WrittenKey(m, resp).value}
      && r.cache[WrittenKey(m, resp).value] == Entry(resp.body, false)
    ensures WrittenKey(m, resp).None? ==> r.cache.Keys == c.Keys
    ensures forall k :: k in c && Some(k) != WrittenKey(m, resp) ==>
      && r.cache[k].value == c[k].value
      && (r.cache[k].stale <==> c[k].stale || Touched(m, k))
  {
    SuccessCacheWrites(m, c, resp);
    SuccessCacheMarks(m, c, resp);
    Settled(SuccessCache(m, c, resp), SuccessToastOf(m))
  }

  /** `Touched`, unfolded per mutation. */
  lemma TouchedByCases(m: Mutation, k: Key)
    ensures Touched(m, k) <==> match m
      case AgregarSocioTemporada(_, t) =>
        IsPrefix([Str("socios-temporada"), Str(t)], k) || IsPrefix([Str("socios-disponibles"), Str(t)], k)
        || IsPrefix([Str("socios")], k)
      case EliminarSocioTemporada(_, t) =>
        IsPrefix([Str("socios-temporada"), Str(t)], k) || IsPrefix([Str("socios-disponibles"), Str(t)], k)
      case _ => IsPrefix(InvalidatedPrefixes(m)[0], k)
  {
    var ps := InvalidatedPrefixes(m);
    if m.AgregarSocioTemporada? || m.EliminarSocioTemporada? {
      if IsPrefix(ps[0], k) { assert 0 < |ps|; }
      if IsPrefix(ps[1], k) { assert 1 < |ps|; }
      if m.AgregarSocioTemporada? && IsPrefix(ps[2], k) { assert 2 < |ps|; }
    } else {
      if IsPrefix(ps[0], k) { assert 0 < |ps|; }
    }
  }

  /** `error.response?.data?.message`. */
  function BackendMessage(e: ErrorAdapter.RawError): Option<string> {
    if e.AxiosError? && e.response.Some? && e.response.value.data.Some? then e.response.value.data.value.message
    else None
  }

  /** The error toast of each mutation. */
  function ErrorToastOf(m: Mutation, e: ErrorAdapter.RawError): (t: Toast)
    ensures t.kind == ErrorToast
    ensures m.CreateSocio? || m.UpdateSocio? || m.DeleteSocio? || m.CreateTemporada? ==>
      t.title == ErrorAdapter.AdaptError(e).title && t.description == Some(ErrorAdapter.AdaptError(e).message)
    ensures m.AgregarSocioTemporada? ==> t == Failure("Error al agregar socio a la temporada")
    ensures m.EliminarSocioTemporada? ==> t == Failure("Error al eliminar socio de la temporada")
    ensures m.UpdateTemporada? ==> t.title == BackendMessage(e).GetOr("Error al crear temporada")
    ensures m.DeleteTemporada? ==> t.title == BackendMessage(e).GetOr("Error al eliminar temporada")
  {
    match m
    case AgregarSocioTemporada(_, _) => Failure("Error al agregar socio a la temporada")
    case EliminarSocioTemporada(_, _) => Failure("Error al eliminar socio de la temporada")
    case UpdateTemporada(_) => Failure(BackendMessage(e).GetOr("Error al crear temporada"))
    case DeleteTemporada(_) => Failure(BackendMessage(e).GetOr("Error al eliminar temporada"))
    case _ =>
      var ui := ErrorAdapter.AdaptError(e);
      Failure(ui.title, Some(ui.message))
  }

  /** A mutation settles with the server's response or with the error thrown. */
  function Settle<V>(m: Mutation, c: Cache<V>, outcome: Result<Response<V>, ErrorAdapter.RawError>): (r: Settled<V>)
    ensures outcome.Err? ==> r.cache == c && r.toast == ErrorToastOf(m, outcome.error)
    ensures outcome.Ok? ==> r == OnSuccess(m, c, outcome.value)
  {
    match outcome
    case Ok(resp) => OnSuccess(m, c, resp)
    case Err(e) => Settled(c, ErrorToastOf(m, e))
  }

  // ---------------------------------------------------------------------------
  // Consequences

  /**
   * Adding a member to a season marks the shared `"socios"` list entries
   * (where the available-members list is cached) stale; removing one leaves
   * them exactly as they were.
   */
  lemma RemovalLeavesAvailableListFresh<V>(c: Cache<V>, s: string, t: string, resp: Response<V>, k: Key)
    requires k in c && QueryHooks.IsListKey(k)
    ensures OnSuccess(AgregarSocioTemporada(s, t), c, resp).cache[k].stale
    ensures OnSuccess(EliminarSocioTemporada(s, t), c, resp).cache[k] == c[k]
  {
    assert IsPrefix([Str("socios")], k);
    TouchedByCases(AgregarSocioTemporada(s, t), k);
    TouchedByCases(EliminarSocioTemporada(s, t), k);
  }

  /**
   * On every key a read hook can read, removing a member from a season has
   * the same effect as invalidating `["socios-temporada", t]` alone: the
   * second invalidation reaches nothing.
   */
  lemma RemovalSecondInvalidationIsDead<V>(c: Cache<V>, s: string, t: string, resp: Response<V>, k: Key)
    requires k in c && QueryHooks.HookKey(k)
    ensures OnSuccess(EliminarSocioTemporada(s, t), c, resp).cache[k]
         == Invalidate(c, [Str("socios-temporada"), Str(t)])[k]
  {
    TouchedByCases(EliminarSocioTemporada(s, t), k);
    QueryHooks.SociosDisponiblesPrefixIsDead(t, k);
  }

  /** Updating a member leaves every season's member list untouched, though those lists embed the member. */
  lemma UpdateSocioKeepsSeasonLists<V>(c: Cache<V>, id: int, resp: Response<V>, k: Key)
    requires k in c && QueryHooks.IsSociosTemporadaKey(k)
    ensures OnSuccess(UpdateSocio(id), c, resp).cache[k] == c[k]
  {
    TouchedByCases(UpdateSocio(id), k);
  }

  /** Deleting a member keeps its cached single-member entry as it was. */
  lemma DeleteSocioKeepsSocioEntry<V>(c: Cache<V>, socioId: string, resp: Response<V>, id: int)
    requires QueryHooks.SocioByIdKey(id) in c
    ensures OnSuccess(DeleteSocio(socioId), c, resp).cache[QueryHooks.SocioByIdKey(id)] == c[QueryHooks.SocioByIdKey(id)]
  {
    var k := QueryHooks.SocioByIdKey(id);
    TouchedByCases(DeleteSocio(socioId), k);
    QueryHooks.SocioKeyOutsideListRoot(id);
  }

  /**
   * Deleting a season stores the delete response as fresh data under
   * `["temporada", id]` and leaves every season member list as it was,
   * including the deleted season's.
   */
  lemma DeleteTemporadaFacts<V>(c: Cache<V>, id: int, resp: Response<V>, t: string)
    ensures var r := OnSuccess(DeleteTemporada(id), c, resp).cache;
      && [Str("temporada"), resp.id] in r
      && r[[Str("temporada"), resp.id]] == Entry(resp.body, false)
      && (QueryHooks.SociosTemporadaKey(t) in c ==>
            r[QueryHooks.SociosTemporadaKey(t)] == c[QueryHooks.SociosTemporadaKey(t)])
  {
    TouchedByCases(DeleteTemporada(id), QueryHooks.SociosTemporadaKey(t));
  }

  /** Adding to season `t` leaves the member lists of every other season untouched. */
  lemma AgregarOnlyItsSeason<V>(c: Cache<V>, s: string, t: string, t': string, resp: Response<V>)
    requires t' != t && QueryHooks.SociosTemporadaKey(t') in c
    ensures OnSuccess(AgregarSocioTemporada(s, t), c, resp).cache[QueryHooks.SociosTemporadaKey(t')]
         == c[QueryHooks.SociosTemporadaKey(t')]
  {
    var k := QueryHooks.SociosTemporadaKey(t');
    TouchedByCases(AgregarSocioTemporada(s, t), k);
    assert k[..2] != [Str("socios-temporada"), Str(t)] by {
      assert k[..2][1] == Str(t');
    }
    assert k[..2] != [Str("socios-disponibles"), Str(t)] by {
      assert k[..2][0] == Str("socios-temporada");
    }
    assert k[..1] != [Str("socios")] by {
      assert k[..1][0] == Str("socios-temporada");
    }
    assert !Touched(AgregarSocioTemporada(s, t), k);
  }

  /** The entry written by an update is the one `useSocioById(n)` reads only if the response id is the number `n`. */
  lemma UpdateWritesReadKeyIff<V>(id: int, resp: Response<V>, n: int)
    ensures WrittenKey(UpdateSocio(id), resp) == Some(QueryHooks.SocioByIdKey(n)) <==> resp.id == Num(n)
  {
    if resp.id == Num(n) {
      assert [Str("socio"), resp.id] == QueryHooks.SocioByIdKey(n);
    }
    if WrittenKey(UpdateSocio(id), resp) == Some(QueryHooks.SocioByIdKey(n)) {
      assert [Str("socio"), resp.id][1] == QueryHooks.SocioByIdKey(n)[1];
    }
  }

  /** A failed season update without a backend message reports a creation failure. */
  lemma UpdateTemporadaFallbackText(id: int, e: ErrorAdapter.RawError)
    requires BackendMessage(e).None?
    ensures Settle<int>(UpdateTemporada(id), map[], Err(e)).toast.title == "Error al crear temporada"
  {
  }
}
