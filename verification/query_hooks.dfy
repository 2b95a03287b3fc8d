/**
 * The cache keys and requests of the read hooks: `useSocios`,
 * `useSocioById`, `useSociosDisponibles`, `useSociosDisponiblesTemporada`,
 * `useSociosTemporada` and `useTemporadas`, plus a description of every key
 * any read hook can produce.
 */
module QueryHooks {
  import opened Wrappers
  import opened Types
  import opened QueryCache
  import opened Http
  import Text
  import PQ = PaginatedQuery
  import Infinite

  /** `useSocios`: the paginated list of all members. */
  const SociosOptions: PQ.Options := PQ.MakeOptions("socios", "/socios", 10)

  /** `useSociosDisponibles`: the same options as `useSocios`. */
  const SociosDisponiblesOptions: PQ.Options := PQ.MakeOptions("socios", "/socios", 10)

  /** `useSociosDisponiblesTemporada(t)`: key root `"socios"`, a season-specific url when `t` is truthy. */
  function SociosDisponiblesTemporadaOptions(temporadaId: Option<string>): (o: PQ.Options)
    ensures o.queryKey == "socios" && o.initialLimit == 10
    ensures Truthy(temporadaId) ==> o.url == "/temporadas/" + temporadaId.value + "/socios-disponibles"
    ensures !Truthy(temporadaId) ==> o.url == ""
  {
    PQ.MakeOptions("socios",
                   if Truthy(temporadaId) then "/temporadas/" + temporadaId.value + "/socios-disponibles" else "",
                   10)
  }

  /**
   * The three paginated hooks share one key space: for equal page, limit and
   * search they read the same cache entry, whatever the season.
   */
  lemma ListKeysCollide(t: Option<string>, t': Option<string>, s: PQ.ListState)
    ensures PQ.KeyOf(SociosDisponiblesOptions, s) == PQ.KeyOf(SociosOptions, s)
    ensures PQ.KeyOf(SociosDisponiblesTemporadaOptions(t), s) == PQ.KeyOf(SociosOptions, s)
    ensures PQ.KeyOf(SociosDisponiblesTemporadaOptions(t), s) == PQ.KeyOf(SociosDisponiblesTemporadaOptions(t'), s)
  {
  }

  /** ... although two different seasons are fetched from two different endpoints. */
  lemma CollidingEndpointsDiffer(t: string, t': string)
    requires t != "" && t' != "" && t != t'
    ensures SociosDisponiblesTemporadaOptions(Some(t)).url != SociosDisponiblesTemporadaOptions(Some(t')).url
    ensures SociosDisponiblesTemporadaOptions(Some(t)).url != SociosOptions.url
  {
    if SociosDisponiblesTemporadaOptions(Some(t)).url == SociosDisponiblesTemporadaOptions(Some(t')).url {
      Text.InfixCancel("/temporadas/", t, t', "/socios-disponibles");
    }
    assert |SociosDisponiblesTemporadaOptions(Some(t)).url| > |SociosOptions.url|;
  }

  /** `useSocioById(id)`: key `["socio", id]`. */
  function SocioByIdKey(id: int): (k: Key)
    ensures |k| == 2 && k[1] == Num(id)
  {
    [Str("socio"), Num(id)]
  }

  /** `useSocioById(id)`: `GET /socios/{id}`. */
  function SocioByIdRequest(id: int): (r: Request)
    ensures r.verb == Get && Text.StartsWith(r.path, "/socios/")
    ensures r.path == "/socios/" + Text.IntToString(id)
  {
    Request(Get, "/socios/" + Text.IntToString(id))
  }

  /** Each member is read from its own path. */
  lemma SocioByIdRequestInjective(a: int, b: int)
    ensures SocioByIdRequest(a) == SocioByIdRequest(b) <==> a == b
  {
    Text.IntToStringInjective(a, b);
    if SocioByIdRequest(a) == SocioByIdRequest(b) {
      assert "/socios/" + Text.IntToString(a) == "/socios/" + Text.IntToString(b);
      assert Text.IntToString(a) == ("/socios/" + Text.IntToString(a))[8..];
      assert Text.IntToString(b) == ("/socios/" + Text.IntToString(b))[8..];
    }
  }

  /** The single-member root `"socio"` is not matched by the list root `"socios"`. */
  lemma SocioKeyOutsideListRoot(id: int)
    ensures !IsPrefix([Str("socios")], SocioByIdKey(id))
  {
    assert SocioByIdKey(id)[..1] == [Str("socio")];
  }

  /** `useSociosTemporada(t)`: key `["socios-temporada", t]`. */
  function SociosTemporadaKey(temporadaId: string): (k: Key)
    ensures |k| == 2 && k[1] == Str(temporadaId)
  {
    [Str("socios-temporada"), Str(temporadaId)]
  }

  /** `enabled: !!temporadaId`. */
  predicate SociosTemporadaEnabled(temporadaId: string) {
    temporadaId != ""
  }

  /** What a query function does: answer at once, or issue a request whose body it returns unchanged. */
  datatype QueryFn<T> = Immediate(value: T) | Fetch(request: Request)

  /** The value the query settles on, given the response body. */
  function Resolve<T>(q: QueryFn<T>, body: T): (r: T)
    ensures q.Fetch? ==> r == body
    ensures q.Immediate? ==> r == q.value
  {
    match q
    case Immediate(v) => v
    case Fetch(_) => body
  }

  /** The query function of `useSociosTemporada`. */
  function SociosTemporadaQueryFn(temporadaId: string): (q: QueryFn<seq<SocioTemporada>>)
    ensures q.Immediate? <==> !SociosTemporadaEnabled(temporadaId)
    ensures q.Immediate? ==> q.value == []
    ensures q.Fetch? ==> q.request == Request(Get, "/temporadas/" + temporadaId + "/socios")
  {
    if temporadaId == "" then Immediate([])
    else Fetch(Request(Get, "/temporadas/" + temporadaId + "/socios"))
  }

  /** `useTemporadas`: one argument-free key, so every caller shares one entry. */
  const TemporadasKey: Key := [Str("temporadas")]

  const TemporadasQueryFn: QueryFn<seq<Temporada>> := Fetch(Request(Get, "/temporadas"))

  // ---------------------------------------------------------------------------
  // The keys the read hooks can produce

  predicate IsListKey(k: Key) {
    |k| == 4 && k[0] == Str("socios") && k[1].Num? && k[2].Num? && k[3].Str?
  }

  predicate IsSocioKey(k: Key) {
    |k| == 2 && k[0] == Str("socio") && k[1].Num?
  }

  predicate IsSociosTemporadaKey(k: Key) {
    |k| == 2 && k[0] == Str("socios-temporada") && k[1].Str?
  }

  predicate IsInfiniteKey(k: Key) {
    |k| == 4 && k[0] == Str("socios-disponibles-infinite") && k[1].Str? && (k[2].Str? || k[2].Undefined?) && k[3].Num?
  }

  /** Some read hook reads this key. */
  predicate HookKey(k: Key) {
    IsListKey(k) || IsSocioKey(k) || IsSociosTemporadaKey(k) || k == TemporadasKey || IsInfiniteKey(k)
  }

  /** The list keys are exactly the keys of the paginated hooks' states. */
  lemma ListKeysExact(k: Key)
    ensures IsListKey(k) <==> exists s: PQ.ListState :: PQ.KeyOf(SociosOptions, s) == k
  {
    if IsListKey(k) {
      var s := PQ.ListState(k[1].n, k[2].n, k[3].s);
      assert PQ.KeyOf(SociosOptions, s) == k;
    }
  }

  /** Every read hook's key is a hook key. */
  lemma HookKeysComplete(s: PQ.ListState, t: Option<string>, id: int, temporadaId: string, a: Infinite.Args)
    ensures HookKey(PQ.KeyOf(SociosOptions, s))
    ensures HookKey(PQ.KeyOf(SociosDisponiblesTemporadaOptions(t), s))
    ensures HookKey(SocioByIdKey(id))
    ensures HookKey(SociosTemporadaKey(temporadaId))
    ensures HookKey(TemporadasKey)
    ensures HookKey(Infinite.KeyOf(a))
  {
  }

  /** No read hook uses the root `"socios-disponibles"`: invalidating under it reaches nothing. */
  lemma SociosDisponiblesPrefixIsDead(temporadaId: string, k: Key)
    requires HookKey(k)
    ensures !IsPrefix([Str("socios-disponibles"), Str(temporadaId)], k)
  {
  }

  /** No read hook uses the root `"temporada"`: what is written there is never read. */
  lemma TemporadaRootIsUnread(k: Key)
    requires HookKey(k)
    ensures !(|k| >= 1 && k[0] == Str("temporada"))
  {
  }
}
