/**
 * The page/limit/search record of hooks/api/common/usePaginatedSearchQuery.ts,
 * the cache key and request parameters derived from it, and the values the
 * hook returns from the latest response.
 */
module PaginatedQuery {
  import opened Wrappers
  import opened QueryCache
  import Pagination

  /** The hook's options: key root, endpoint and initial page size. */
  datatype Options = Options(queryKey: string, url: string, initialLimit: int)

  /** `initialLimit` defaults to 10. */
  function MakeOptions(queryKey: string, url: string, initialLimit: int := 10): (o: Options)
    ensures o.queryKey == queryKey && o.url == url && o.initialLimit == initialLimit
  {
    Options(queryKey, url, initialLimit)
  }

  datatype ListState = ListState(page: int, limit: int, searchTerm: string)

  function Init(o: Options): (s: ListState)
    ensures s.page == 1 && s.limit == o.initialLimit && s.searchTerm == ""
  {
    ListState(1, o.initialLimit, "")
  }

  /** `setSearch(v)`: stores `v` verbatim; returns to page 1 only when past it. */
  function SetSearch(s: ListState, v: string): (r: ListState)
    ensures r.searchTerm == v && r.limit == s.limit
    ensures s.page >= 1 ==> r.page == 1
    ensures s.page <= 1 ==> r.page == s.page
  {
    ListState(if s.page > 1 then 1 else s.page, s.limit, v)
  }

  /** `setPage(n)` (`handlePageChange`): a lower clamp only. */
  function SetPage(s: ListState, n: int): (r: ListState)
    ensures r.page >= 1 && r.limit == s.limit && r.searchTerm == s.searchTerm
    ensures n >= 1 ==> r.page == n
    ensures n < 1 ==> r.page == 1
  {
    s.(page := if n < 1 then 1 else n)
  }

  /** `handleLimitChange(l)`. */
  function HandleLimitChange(s: ListState, l: int): (r: ListState)
    ensures r.limit == l && r.page == 1 && r.searchTerm == s.searchTerm
  {
    ListState(1, l, s.searchTerm)
  }

  /** The cache key `[queryKey, page, limit, searchTerm]`. */
  function KeyOf(o: Options, s: ListState): (k: Key)
    ensures |k| == 4 && k[0] == Str(o.queryKey)
    ensures IsPrefix([Str(o.queryKey)], k)
  {
    [Str(o.queryKey), Num(s.page), Num(s.limit), Str(s.searchTerm)]
  }

  /** Distinct states of the same hook are cached under distinct keys, and the key depends on nothing else. */
  lemma KeyInjective(o: Options, o': Options, s: ListState, s': ListState)
    ensures KeyOf(o, s) == KeyOf(o', s') <==> o.queryKey == o'.queryKey && s == s'
  {
    if KeyOf(o, s) == KeyOf(o', s') {
      assert KeyOf(o, s)[0] == KeyOf(o', s')[0];
      assert KeyOf(o, s)[1] == KeyOf(o', s')[1];
      assert KeyOf(o, s)[2] == KeyOf(o', s')[2];
      assert KeyOf(o, s)[3] == KeyOf(o', s')[3];
    }
  }

  /** The query parameters of the GET request. */
  datatype Params = Params(page: int, limit: int, search: Option<string>)

  /** `page` and `limit` always; `search` only for a non-empty term (`searchTerm || undefined`). */
  function ParamsOf(s: ListState): (p: Params)
    ensures p.page == s.page && p.limit == s.limit
    ensures p.search.Some? <==> s.searchTerm != ""
    ensures p.search.Some? ==> p.search.value == s.searchTerm
  {
    Params(s.page, s.limit, if s.searchTerm == "" then None else Some(s.searchTerm))
  }

  /** `PaginatedResponse<T>`: one page of items and the total count. */
  datatype Response<T> = Response(data: seq<T>, total: nat)

  /** What the hook returns besides its state and actions. */
  datatype View<T> = View(data: seq<T>, total: nat, totalPages: nat, hasNextPage: bool, hasPreviousPage: bool)

  /** The derived values, from the latest response if there is one. */
  function ViewOf<T>(s: ListState, latest: Option<Response<T>>): (v: View<T>)
    requires s.limit > 0
    ensures latest.None? ==> v.data == [] && v.total == 0 && v.totalPages == 0
    ensures latest.Some? ==> v.data == latest.value.data && v.total == latest.value.total
    ensures v.totalPages == Pagination.TotalPages(v.total, s.limit)
    ensures v.hasNextPage <==> s.page < v.totalPages
    ensures v.hasPreviousPage <==> s.page > 1
  {
    var total := if latest.Some? then latest.value.total else 0;
    var tp := Pagination.TotalPages(total, s.limit);
    View(if latest.Some? then latest.value.data else [], total, tp, s.page < tp, s.page > 1)
  }

  /** `nextPage()`: one page forward when the latest response shows a next page. */
  function NextPage<T>(s: ListState, latest: Option<Response<T>>): (r: ListState)
    requires s.limit > 0
    ensures ViewOf(s, latest).hasNextPage ==> r == s.(page := Pagination.Max(1, s.page + 1))
    ensures !ViewOf(s, latest).hasNextPage ==> r == s
  {
    if ViewOf(s, latest).hasNextPage then SetPage(s, s.page + 1) else s
  }

  /** `prevPage()`: one page back when not on the first page. */
  function PrevPage(s: ListState): (r: ListState)
    ensures s.page > 1 ==> r == s.(page := s.page - 1) && r.page >= 1
    ensures s.page <= 1 ==> r == s
  {
    if s.page > 1 then SetPage(s, s.page - 1) else s
  }

  /** The user actions of the hook; `Next` carries the response visible at the time. */
  datatype Action<T> =
    | Search(term: string)
    | GoTo(page: int)
    | ChangeLimit(limit: int)
    | Next(latest: Option<Response<T>>)
    | Prev

  function Step<T>(s: ListState, a: Action<T>): ListState
    requires a.Next? ==> s.limit > 0
  {
    match a
    case Search(t) => SetSearch(s, t)
    case GoTo(n) => SetPage(s, n)
    case ChangeLimit(l) => HandleLimitChange(s, l)
    case Next(latest) => NextPage(s, latest)
    case Prev => PrevPage(s)
  }

  /** Every limit the actions set is positive, so the page arithmetic stays defined. */
  predicate PositiveLimits<T>(actions: seq<Action<T>>) {
    forall i :: 0 <= i < |actions| ==> (actions[i].ChangeLimit? ==> actions[i].limit > 0)
  }

  function Run<T>(s: ListState, actions: seq<Action<T>>): ListState
    requires s.limit > 0 && PositiveLimits(actions)
    decreases |actions|
  {
    if actions == [] then s
    else
      var s' := Step(s, actions[0]);
      assert s'.limit > 0 by {
        assert actions[0].ChangeLimit? ==> actions[0].limit > 0;
      }
      Run(s', actions[1..])
  }

  /** From the initial state, every sequence of actions keeps page ≥ 1 and the limit positive. */
  lemma {:induction false} RunKeepsPagePositive<T>(s: ListState, actions: seq<Action<T>>)
    requires s.page >= 1 && s.limit > 0 && PositiveLimits(actions)
    ensures Run(s, actions).page >= 1 && Run(s, actions).limit > 0
    decreases |actions|
  {
    if actions != [] {
      var s' := Step(s, actions[0]);
      assert actions[0].ChangeLimit? ==> actions[0].limit > 0;
      assert PositiveLimits(actions[1..]) by {
        forall i | 0 <= i < |actions[1..]|
          ensures actions[1..][i].ChangeLimit? ==> actions[1..][i].limit > 0
        {
          assert actions[1..][i] == actions[i + 1];
        }
      }
      RunKeepsPagePositive(s', actions[1..]);
    }
  }

  /** `setPage` has no upper clamp: a page past the last is accepted as is. */
  lemma SetPageUnbounded<T>(s: ListState, latest: Option<Response<T>>)
    requires s.limit > 0
    ensures var r := SetPage(s, ViewOf(s, latest).totalPages + 5);
      r.page > ViewOf(r, latest).totalPages
  {
  }
}
