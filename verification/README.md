# Club La Victoria dashboard: a Dafny model of its client-side logic

This project models the logic underneath the club's membership dashboard, which is a Next.js/React application. The dashboard manages members (*socios*), seasons (*temporadas*), the associations between them (*asociaciones*) and daily entry statistics. It leaves out the rendering and models the sequential logic:

- **List views as state machines.** The pager of `usePagination` (`Pagination`), the page/limit/search record of `usePaginatedSearchQuery` (`PaginatedQuery`), the filter-then-paginate view and season auto-selection of the association screen (`AssociationManagement`), the available-members picker with its `debounce` helper (`AvailableMembers`), and the infinite list of available members (`Infinite`).
- **Debounced search.** `useSearch` is a discrete-event machine (`DebouncedSearch`) with the events "typing", "timer fires", "clear" and "re-render". The settled term is handed to `onSearch` by an asymmetric rule: the empty term is always handed on. Whether the caller's callback keeps its identity across renders is part of the configuration, since an inline arrow makes the emission effect run after every render.
- **Query cache and mutations.** An abstract query cache (`QueryCache`) maps keys, which are sequences of atoms, to entries with a `stale` flag. `invalidateQueries` marks stale every entry under a key prefix, which is TanStack Query's default matching; `setQueryData` writes one fresh entry. Both are plain definitions here. `QueryHooks` and `Infinite` describe the keys and requests of the read hooks. `Mutations` describes the request, cache effect and toast of each of the eight mutation hooks.
- **Errors.** The backend error codes (`ErrorTypes`), the message and title tables (`ErrorMessages`), the Axios error adapter (`ErrorAdapter`), the query retry and toast rules of the query client and the auth provider (`RetryPolicy`), and the older fetch-based utilities with exponential backoff (`ErrorHandler`).
- **Validators and predicates.** The member and season zod schemas (`SocioSchema`, `TemporadaSchema`), the association form (`AssociationForm`), calendar predicates on `YYYY-MM-DD` dates with "today" passed explicitly (`Dates`), the season status banner (`SeasonStatus`), route matching (`Routes`), the mock tables and their lookups (`MockData`), and the constant tables (`Constants`).

Shared helpers:

- `Wrappers` holds `Option` and `Result`.
- `Text` holds trimming, ASCII lower-casing, substring search, string order, decimal rendering and the UTF-16 length that JavaScript's `length` reports.
- `Lists` holds the array operations `filter`, `find` and `slice`.
- `Types` holds the records of `lib/types.ts`.
- `Http` holds request verbs and paths.
- `Toasts` holds the toast notifications.

Time is always a parameter: "today" is a date, the clock reading is an instant, and the member schema also receives the UTC offset of the local clock. Network answers are also parameters: a response or an error value that a function receives. A fetch in flight is a request value returned together with the next state; its answer arrives later as an event.

## Model

| member | source | states |
|---|---|---|
| ErrorTypes.CodeString | lib/errors/error.types.ts:7-39 | every wire string of `BackendErrorCode` carries the `ERR_` prefix |
| ErrorTypes.AllCodesListed | lib/errors/error.types.ts:7-39 | the table of values lists every code |
| ErrorTypes.ParseCode | lib/errors/error.adapter.ts:18-21 | a found code spells the string; nothing is found exactly when no listed code spells it |
| ErrorTypes.CodeStringInjective | lib/errors/error.types.ts:7-39 | no two codes share a wire string, so the cast back to a code is unambiguous |
| ErrorTypes.ParseCodeString | lib/errors/error.adapter.ts:18-21 | parsing the wire string of a code gives that code back (the round trip) |
| ErrorTypes.ShortIsNotCode | lib/errors/error.adapter.ts:18-21 | a string shorter than every wire string is rejected |
| ErrorTypes.IsValidBackendCodeIff | lib/errors/error.adapter.ts:18-21 | a value is valid exactly when it is a string and the wire string of some code |
| ErrorTypes.ApiCodeString | lib/errors/error.types.ts:53-58 | every code an `ApiError` can carry starts with `ERR_` |
| ErrorTypes.UnknownIsNotBackend | lib/errors/error.types.ts:55 | `ERR_UNKNOWN` is not a backend code, so the two kinds of `ApiError` code never collide |
| ErrorMessages.CodeMessage | lib/errors/error-messages.ts:8-48 | every backend code has a non-empty message |
| ErrorMessages.Message | lib/errors/error-messages.ts:8-52 | every key of the table, the three client-side ones included, has a non-empty message |
| ErrorMessages.MessageOf | lib/errors/error-messages.ts:8-52 | the message of an `ApiError` code is the table's entry for that code, `ERR_UNKNOWN` included |
| ErrorMessages.Title | lib/errors/error-messages.ts:55-59 | each variant has a non-empty title |
| ErrorMessages.TitleInjective | lib/errors/error-messages.ts:55-59 | the three titles differ, so a title identifies its variant |
| ErrorAdapter.ParseApiError | lib/errors/error.adapter.ts:26-81 | a response body decides status, code and message (the backend message wins when truthy); otherwise network failure gives status 0, timeout 408, any other `Error` 500 with its own message or the unexpected-error text, a non-`Error` 500 with the unknown text; the message is never empty |
| ErrorAdapter.ResponseTakesPrecedence | lib/errors/error.adapter.ts:28-42 | a response body wins over a transport code such as `ERR_NETWORK` |
| ErrorAdapter.ToUiError | lib/errors/error.adapter.ts:86-126 | the later tests override the earlier: transient beats authentication beats validation beats the error default; actionable exactly when not an error; title from the variant; message kept |
| ErrorAdapter.AuthOverridesValidation | lib/errors/error.adapter.ts:94-111 | a 401 carrying a validation code is shown as information |
| ErrorAdapter.AdaptError | lib/errors/error.adapter.ts:132-135 | network failures and timeouts become actionable warnings with their table messages; a non-`Error` becomes the non-actionable unknown error |
| RetryPolicy.QueryRetrySchedule | lib/errors/query-error-handler.tsx:43-52 | network failures and timeouts are retried twice and no more; a response with a listed status is never retried |
| RetryPolicy.QueryRetry | lib/errors/query-error-handler.tsx:43-52 | a query is retried while fewer than two failures have happened, unless the adapted status is one of 400, 401, 403, 404 and 422 |
| RetryPolicy.HandleQueryError | lib/errors/query-error-handler.tsx:13-34 | no toast exactly for the two session codes; otherwise an error toast with the adapted title and message, lasting 5000 ms when actionable and 3000 ms otherwise |
| RetryPolicy.SessionErrorsAreSilent | lib/errors/query-error-handler.tsx:20-27 | a response carrying a session code is silent whatever its HTTP status |
| RetryPolicy.ResponseStatus | providers/auth-provider.tsx:16 | `error?.response?.status` is present exactly for an Axios error with a response |
| RetryPolicy.ProviderRetryFacts | providers/auth-provider.tsx:13-18 | a 401 response is never retried; anything else is retried three times, errors without a response included |
| RetryPolicy.ProviderRetry | providers/auth-provider.tsx:14-18 | a query is retried while fewer than three failures have happened, unless the response status is 401 |
| Routes.MemberView | lib/routes.ts:12 | the member view path is the list path, a slash, and the id |
| Routes.MemberEdit | lib/routes.ts:11 | the member edit path is the view path followed by `/edit` |
| Routes.SeasonView | lib/routes.ts:20 | the season view path is the list path, a slash, and the id |
| Routes.SeasonEdit | lib/routes.ts:19 | the season edit path is the view path followed by `/edit` |
| Routes.ViewInjective | lib/routes.ts:11-20 | different ids give different view paths |
| Routes.HomeOnlyItself | lib/routes.ts:35-37 | the home route is active only on `/` |
| Routes.PrefixRule | lib/routes.ts:38 | any other route is active exactly on the paths it is a prefix of |
| Routes.IsActiveRoute | lib/routes.ts:34-39 | the home route is active only on itself, any other route on every path it prefixes; Routes.HomeOnlyItself and Routes.PrefixRule state both cases |
| Routes.Reflexive | lib/routes.ts:34-39 | every route is active on its own path |
| Routes.SubpagesActive | lib/routes.ts:8-21 | edit and create pages keep their section active |
| Routes.NotSegmentAware | lib/routes.ts:38 | the associations page also activates the members entry, but not the other way round |
| Dates.Pad | lib/utils/date.ts:8 | a padded numeral has exactly the requested width and only digits |
| Dates.NumberOfPad | lib/utils/date.ts:8 | reading a padded numeral back gives the number while it fits |
| Dates.PadOfNumber | lib/utils/date.ts:8 | padding the value of a digit string to its width gives the string back |
| Dates.PadOrder | lib/utils/date.ts:8 | fixed-width numerals compare as strings exactly as their numbers do |
| Dates.ParseDateSafe | lib/utils/date.ts:11-14 | a parsed `YYYY-MM-DD` string is always a real calendar day |
| Dates.ParseFormat | lib/utils/date.ts:11-14 | parsing the text of a valid day gives the day back |
| Dates.FormatParse | lib/utils/date.ts:11-14 | a parseable string is exactly the text of the day it names |
| Dates.FormatOrder | lib/utils/date.ts:8 | on `YYYY-MM-DD` strings, string order is calendar order |
| Dates.PastTodayFuture | lib/utils/date.ts:95-125 | a parseable day is exactly one of past, today and future; an Invalid Date is none of them |
| Dates.RangeActiveFacts | lib/utils/date.ts:133-139 | an active range does not end in the past or start in the future; a reversed range is never active |
| Dates.IsDatePast | lib/utils/date.ts:95-100 | the parsed day lies before today, and an Invalid Date is never past; Dates.PastTodayFuture relates it to the other two |
| Dates.IsDateFuture | lib/utils/date.ts:107-112 | the parsed day lies after today, and an Invalid Date is never future; Dates.PastTodayFuture relates it to the other two |
| Dates.IsDateToday | lib/utils/date.ts:119-125 | the parsed day is today, and an Invalid Date is never today; Dates.PastTodayFuture relates it to the other two |
| Dates.IsDateRangeActive | lib/utils/date.ts:133-139 | today lies between the two parsed days, both included; Dates.RangeActiveFacts states its consequences |
| Dates.StyleOf | lib/utils/date.ts:60-73 | "long" and "numeric" select their style; anything else falls to short |
| Dates.FormatDate | lib/utils/date.ts:60-73 | an Invalid Date renders as "Invalid Date"; a valid day renders in the chosen style |
| Dates.FormatDateRange | lib/utils/date.ts:82-88 | the two ends rendered in the same style, joined by " - " |
| Dates.MidnightOf | components/association/season-status-alert.tsx:18-19 | a date-only string is the midnight opening its day, or Invalid Date exactly when it does not parse |
| Dates.PrevDay | lib/schemas/socio.schema.ts:73-80 | the day before a valid day: earlier than it, a valid day itself (except before year 0), and no valid day lies between the two |
| Dates.UtcMidnightOf | lib/schemas/socio.schema.ts:59-60 | `new Date(s)` on a date-only string is UTC midnight; on a clock `offset` minutes ahead of UTC that instant is read as that day at `offset` minutes, or west of UTC as the previous day late in the evening; it exists exactly when the string parses |
| Text.TrimStart | lib/schemas/socio.schema.ts:20 | the result is a suffix that does not start with whitespace, and only whitespace was dropped |
| Text.TrimEnd | lib/schemas/socio.schema.ts:20 | the result is a prefix that does not end with whitespace, and only whitespace was dropped |
| Text.Trim | lib/schemas/socio.schema.ts:20 | the result is the input with exactly its leading and trailing whitespace removed: it occurs in the input with only whitespace before and after it, and neither starts nor ends with whitespace |
| Text.TrimInfix | lib/schemas/socio.schema.ts:20 | the trimmed string sits in the input after exactly the leading whitespace that trimming the start removed, with only whitespace after it |
| Text.TrimEndInfix | lib/schemas/socio.schema.ts:20 | trimming the end of a suffix of the input leaves a string found at that suffix's offset, followed only by whitespace |
| Text.BlankIffAllSpace | lib/schemas/socio.schema.ts:40 | `s.trim() === ""` exactly when `s` is all whitespace |
| Text.TrimOfTrimmed | lib/schemas/socio.schema.ts:20 | trimming a string without surrounding whitespace changes nothing |
| Text.Lower | components/association-management.tsx:106-124 | lower-casing keeps the length and maps each character |
| Text.ContainsIff | components/association-management.tsx:106-124 | the scan behind `includes` finds a substring exactly when it occurs |
| Text.Units | hooks/use-search.ts:51 | a character takes one UTF-16 code unit in the Basic Multilingual Plane and two above it, each a 16-bit value |
| Text.UnitSeqCancel | lib/mock-data.ts:375-381 | a shared prefix does not change how two code-unit sequences compare |
| Text.UnitsFirstDifference | lib/mock-data.ts:375-381 | the encodings of two different characters compare as the characters do in code-unit order, whatever follows them |
| Text.EncodeOrder | lib/mock-data.ts:375-381 | JavaScript's `<` on strings is exactly the order of their UTF-16 encodings compared unit by unit |
| Text.LexLessAt | lib/mock-data.ts:375-381 | strings equal up to a position and ordered there in code-unit order are ordered |
| Text.LexIrreflexive | components/association-management.tsx:53-69 | no string is before itself |
| Text.LexTransitive | components/association-management.tsx:53-69 | string order is transitive |
| Text.LexTotal | components/association-management.tsx:53-69 | any two different strings are ordered one way or the other |
| Text.LexAsymmetric | components/association-management.tsx:53-69 | string order is asymmetric |
| Text.IntToString | hooks/api/socios/useUpdateSocio.tsx:18 | the rendering of a number in a template literal: its decimal value is the number, with a leading `-` exactly for negatives and no leading zero |
| Text.IntToStringChars | hooks/api/socios/useUpdateSocio.tsx:18 | a rendered number holds only decimal digits, apart from a leading `-` |
| Text.IntToStringInjective | hooks/api/socios/useUpdateSocio.tsx:18 | two numbers render to the same text exactly when they are equal |
| Text.Utf16Length | hooks/use-search.ts:51 | `length` counts UTF-16 code units, one or two per character, so it lies between the character count and twice it |
| Text.Utf16LengthBounds | hooks/use-search.ts:51 | the UTF-16 length equals the character count exactly when every character is in the Basic Multilingual Plane, and twice it exactly when none is |
| Text.Utf16LengthAppend | hooks/use-search.ts:51 | the UTF-16 length of a concatenation is the sum of the lengths |
| SocioSchema.DniIssue | lib/schemas/socio.schema.ts:10-14 | the DNI passes exactly when it is eight ASCII digits; an empty one reads "required", any other failure "invalid DNI" |
| SocioSchema.IndexOf | lib/constants.ts:56 | the position found holds the character and none before it does; none is found only when it does not occur |
| SocioSchema.EmailScanIff | lib/constants.ts:56 | splitting at the first `@` and testing both sides accepts exactly what the email regular expression matches |
| SocioSchema.FirstAt | lib/constants.ts:56 | an `@` preceded by no `@` is the first one |
| SocioSchema.EmailIssue | lib/schemas/socio.schema.ts:35-44 | an absent or blank email passes; anything else passes exactly when its trimmed text matches |
| SocioSchema.OptionalTrimmed | lib/schemas/socio.schema.ts:45-51 | the output is absent exactly for absent or blank input, and otherwise the non-empty trimmed text |
| SocioSchema.AgeIsCompletedYears | lib/schemas/socio.schema.ts:73-91 | the computed age is the number of anniversaries reached: that one has come, the next has not |
| SocioSchema.AgeNonNegative | lib/schemas/socio.schema.ts:73-91 | a birth date not after today has a non-negative age |
| SocioSchema.BirthIssue | lib/schemas/socio.schema.ts:54-92 | on a clock `offset` minutes ahead of UTC, the birth date passes exactly when it parses, is before today (not after today when the offset is not positive) and the completed years from its local calendar day, which is the day before west of UTC, are at most 120; an empty one reads "required", an unparseable one "Fecha inválida" |
| SocioSchema.LocalBirthDay | lib/schemas/socio.schema.ts:73-80 | the local day the getters read from the UTC midnight of a date-only string: the day itself at or east of UTC, the latest earlier day west of it |
| SocioSchema.BirthIssueAtUtc | lib/schemas/socio.schema.ts:54-92 | at UTC the birth date passes exactly when it parses, is not after today and is at most 120 completed years ago |
| SocioSchema.EastOfUtcRejectsToday | lib/schemas/socio.schema.ts:64-72 | ahead of UTC a birth date of today is reported as a future date |
| SocioSchema.WestOfUtcCountsFromDayBefore | lib/schemas/socio.schema.ts:73-91 | three hours behind UTC on 2025-06-14, a birth on 1904-06-15 (120 completed years) is rejected as out of range, while at UTC it passes |
| SocioSchema.GeneroOf | lib/schemas/socio.schema.ts:95-97 | only the two listed genders are accepted |
| SocioSchema.EstadoOf | lib/schemas/socio.schema.ts:100-102 | only the two listed states are accepted |
| SocioSchema.RequiredIssue | lib/schemas/socio.schema.ts:17-32 | `min(1)` on the raw value: only the empty string fails, so whitespace passes |
| SocioSchema.Issues | lib/schemas/socio.schema.ts:8-106 | the issues `safeParse` reports are exactly the fields whose checks fail, each with its first failing check's message, and there are none exactly when every rule of the schema holds |
| SocioSchema.IssuesOverIff | lib/schemas/socio.schema.ts:8-106 | a field is reported, with its message, exactly when one of its checks fails |
| SocioSchema.ReportedFields | lib/schemas/socio.schema.ts:8-106 | over the whole object, a field is reported with a message exactly when its checks fail with that message |
| SocioSchema.IssuesOverEmpty | lib/schemas/socio.schema.ts:8-106 | no issue is reported exactly when every listed field passes |
| SocioSchema.FieldOrderComplete | lib/schemas/socio.schema.ts:8-106 | every field of the schema is checked |
| SocioSchema.EveryFieldPassesIff | lib/schemas/socio.schema.ts:8-106 | every field passing is exactly every rule of the schema holding |
| SocioSchema.AcceptedFieldPasses | lib/schemas/socio.schema.ts:8-106 | an input meeting every rule passes each field's checks |
| SocioSchema.FieldsPassAccepted | lib/schemas/socio.schema.ts:8-106 | an input passing each field's checks meets every rule |
| SocioSchema.NoIssuesIffAccepted | lib/schemas/socio.schema.ts:8-106 | no field is reported exactly when every rule holds |
| SocioSchema.Parse | lib/schemas/socio.schema.ts:8-106 | on a given clock, parsing succeeds exactly when every rule holds; failure lists the reported fields; success trims the texts, drops blank optional texts and maps the enumerations |
| SocioSchema.BlankNamePasses | lib/schemas/socio.schema.ts:17-20 | a whitespace-only name passes and comes out empty |
| SocioSchema.ParseIdempotent | lib/schemas/socio.schema.ts:8-106 | with non-blank required texts, the parsed record entered again parses to itself |
| SocioSchema.ReparseSame | lib/schemas/socio.schema.ts:8-106 | a record whose texts are already trimmed comes back unchanged from a second parse |
| SocioSchema.ReenterAccepted | lib/schemas/socio.schema.ts:8-106 | the parsed record, entered again, meets every rule when its required texts are not blank |
| SocioSchema.OptionalTrimmedIdempotent | lib/schemas/socio.schema.ts:45-51 | the optional-text transform is idempotent |
| SocioSchema.BlankNameNotStable | lib/schemas/socio.schema.ts:17-20 | with a whitespace-only name, the parsed record is rejected when entered again |
| SocioSchema.ParseUpdate | lib/schemas/socio.schema.ts:112-116 | the update schema, built with `email`, `telefono` and `fotoUrl` each wrapped by `partial`: it succeeds exactly when no field of the full schema is reported, and its three wrapped outputs are what the wrapped field schemas produce |
| SocioSchema.Optional | lib/schemas/socio.schema.ts:112-116 | `partial` lets an absent value through as absent without running the field schema, and hands a present one to it |
| SocioSchema.IssuesOverAppend | lib/schemas/socio.schema.ts:8-106 | the issues of two runs of fields are the issues of each, in order |
| SocioSchema.SplitIssues | lib/schemas/socio.schema.ts:8-106 | the issues of a field list split around `email` are those before it, its own and those after it |
| SocioSchema.IssuesOverSingle | lib/schemas/socio.schema.ts:8-106 | a single field reports its issue when its check fails, and nothing otherwise |
| SocioSchema.UpdateIssues | lib/schemas/socio.schema.ts:112-116 | the issues of the update schema, with `email` wrapped by `partial`, are exactly the issues of the full schema |
| SocioSchema.OptionalEmailIssues | lib/schemas/socio.schema.ts:35-44 | the email field wrapped by `partial` reports exactly the issue the unwrapped rule does |
| SocioSchema.OptionalEmailSame | lib/schemas/socio.schema.ts:35-44 | wrapping the email schema by `partial` changes neither its verdict nor its output |
| SocioSchema.PartialChangesNothing | lib/schemas/socio.schema.ts:112-116 | the update schema accepts, rejects and outputs exactly as the creation schema does, because the three fields it makes optional already are |
| TemporadaSchema.DateIssue | lib/schemas/temporada.schema.ts:17-38 | a date field passes exactly when it parses, and fails with that field's message |
| TemporadaSchema.Issues | lib/schemas/temporada.schema.ts:8-58 | an issue is listed exactly when its field's check yields that message, so nothing else is listed; the five messages are reported exactly when their rules fail: empty name, unparseable start, unparseable end, end not after a parseable end's start (shown on `fechaFin` only when the field's own check passed), description over 100 UTF-16 code units |
| TemporadaSchema.FinIssue | lib/schemas/temporada.schema.ts:28-57 | `fechaFin` carries its own message exactly when it does not parse, the order message exactly when it parses but does not follow the start, and no other |
| TemporadaSchema.Parse | lib/schemas/temporada.schema.ts:8-58 | parsing succeeds exactly when the name is non-empty, the description fits and the end is strictly after the start; failure lists the issues; success trims the name and drops a blank description |
| TemporadaSchema.SameDayRejected | lib/schemas/temporada.schema.ts:48-57 | a season ending on its start day is rejected, with the order message on `fechaFin` |
| TemporadaSchema.AcceptedDatesInStringOrder | lib/schemas/temporada.schema.ts:48-57 | an accepted season's dates are in string order, the order the rest of the dashboard compares them in |
| TemporadaSchema.DescriptionLimitBeforeTrim | lib/schemas/temporada.schema.ts:41-45 | the 100-unit limit counts the untrimmed text |
| TemporadaSchema.AstralDescriptionTooLong | lib/schemas/temporada.schema.ts:41-45 | sixty characters outside the Basic Multilingual Plane are 120 code units, so such a description is rejected |
| Constants.PageSizeTable | lib/constants.ts:33-38 | the page-size options increase strictly, stay within the minimum and maximum, start and end at them, and include the default |
| Constants.LimitsConsistent | lib/constants.ts:16-61 | the search length bounds are ordered and positive, the DNI length is fixed at eight, the stale time is five minutes |
| Pagination.TotalPages | hooks/use-pagination.ts:18 | the page count is the least number of pages that covers every item, and zero exactly for an empty list |
| Pagination.GoToPage | hooks/use-pagination.ts:22-25 | the target page is clamped into the available pages, falling to 1 below the range or when there are none |
| Pagination.GoToNextPage | hooks/use-pagination.ts:27-31 | the page moves forward by one while a next page exists, and nothing changes otherwise |
| Pagination.GoToPreviousPage | hooks/use-pagination.ts:33-37 | the page moves back by one from a page after the first, and never goes below 1 from a valid page |
| Pagination.NavigationKeepsRange | hooks/use-pagination.ts:22-42 | from a page in range, every navigation action and a page-size change keep the page in range |
| Pagination.SetCurrentPageEscapes | hooks/use-pagination.ts:61 | the raw setter the hook also returns can leave the range on either side |
| Pagination.InfoOf | hooks/use-pagination.ts:18-53 | the reported window starts right after the previous pages, ends inside the list, and is a full page unless it ends at the last item; the flags say whether a next or previous page exists |
| Pagination.WindowInsideList | hooks/use-pagination.ts:18-53 | on a non-empty list and a page in range the window is non-empty, inside the list, and full except on the last page |
| Pagination.WindowsAdjacent | hooks/use-pagination.ts:18-53 | the windows of consecutive pages are adjacent, so the pages tile the list |
| Pagination.LastWindowEndsAtTotal | hooks/use-pagination.ts:18-20 | the window of the last page ends at the last item, so together with the adjacent windows the pages tile the list |
| Pagination.Init | hooks/use-pagination.ts:15-16 | the pager starts on the initial page with the initial page size |
| Pagination.ChangePageSize | hooks/use-pagination.ts:39-42 | a page-size change adopts the new size and returns to the first page |
| Pagination.SetCurrentPage | hooks/use-pagination.ts:61 | the raw setter stores any page unchecked and keeps the size |
| DebouncedSearch.DefaultConfig | hooks/use-search.ts:11-16 | the default minimum length is the configured minimum search length, 2 |
| DebouncedSearch.ValidSearchDoesNotTrim | hooks/use-search.ts:50-53 | `isValidSearch` measures the raw term, so whitespace counts, whatever the callback |
| DebouncedSearch.Emission | hooks/use-search.ts:30-39 | with a callback, a settled term is passed on exactly when its UTF-16 length reaches the minimum or it is empty, and is passed unchanged |
| DebouncedSearch.EmptyAlwaysEmits | hooks/use-search.ts:33-38 | the empty term is passed on although it is shorter than the minimum; other terms shorter in UTF-16 units are not |
| DebouncedSearch.AstralCharMeetsMinimum | hooks/use-search.ts:33 | one character outside the Basic Multilingual Plane is two code units, so it meets the default minimum of 2 and is passed on |
| DebouncedSearch.Init | hooks/use-search.ts:17-27 | on mount both terms hold the initial value, the machine is valid and not searching |
| DebouncedSearch.Next | hooks/use-search.ts:20-48 | typing replaces the input and re-arms the timer for it, leaving the settled term; the timer copies its term into the settled one; clearing empties both terms at once |
| DebouncedSearch.Emitted | hooks/use-search.ts:30-39 | with a stable callback `onSearch` is called only when the settled term changes; with a new callback on every render, as an inline arrow gives, it is called after every render; either way with the settled term and only when it passes the rule |
| DebouncedSearch.RerenderReemits | components/association-management.tsx:39-43 | a re-render changes no state; it re-runs the callback effect, handing the settled term over again, exactly when the callback is a new function each render |
| DebouncedSearch.InlineCallbackRepeatsSettledTerm | components/association-management.tsx:39-43 | with the inline callback the association screen passes, every keystroke re-sends the unchanged settled term when it passes the rule |
| DebouncedSearch.NextValid | hooks/use-search.ts:20-48 | every event keeps a pending timer carrying the current input, and with none pending the settled term caught up |
| DebouncedSearch.IdleIsSettled | hooks/use-search.ts:61 | with no timer pending the hook is not searching |
| DebouncedSearch.BurstEmitsNothing | hooks/use-search.ts:20-39 | a burst of typing settles nothing, and the input holds the last value typed; a stable callback hears nothing, an inline one hears only the unchanged settled term |
| DebouncedSearch.OnlyLastTermSettles | hooks/use-search.ts:20-39 | after a burst, the timer settles exactly the last term typed and adds at most that term to what the callback heard, exactly when it is new and passes the rule; a stable callback hears nothing else |
| DebouncedSearch.RunAppend | hooks/use-search.ts:20-48 | running events one after another composes |
| DebouncedSearch.ClearSettlesAtOnce | hooks/use-search.ts:45-48 | clearing ends any search at once; "" is passed on when the settled term was not empty, and, when it was, only by a callback that is new each render and only if the input was not empty |
| DebouncedSearch.SilentWithoutCallback | hooks/use-search.ts:31 | without a callback nothing is ever passed on |
| QueryCache.RootPrefix | hooks/api/socios/useCreateSocio.tsx:26 | a one-atom invalidation prefix reaches exactly the keys whose first atom it is |
| QueryCache.Invalidate | hooks/api/socios/useAgregarSocioTemporada.tsx:23-25 | invalidation keeps every key and every value and turns stale exactly the entries under the prefix, leaving already-stale entries stale |
| QueryCache.SetQueryData | hooks/api/socios/useCreateSocio.tsx:23 | writing a key adds it to the cache as fresh data and leaves every other entry as it was |
| QueryCache.InvalidateOnlyPrefix | hooks/api/socios/useAgregarSocioTemporada.tsx:23-25 | an entry whose key is outside the prefix is left exactly as it was |
| QueryCache.InvalidateIdempotent | hooks/api/socios/useAgregarSocioTemporada.tsx:23-25 | invalidating the same prefix twice is invalidating it once |
| QueryCache.InvalidateCommutes | hooks/api/socios/useAgregarSocioTemporada.tsx:23-25 | the order of two invalidations does not change the cache they leave |
| QueryCache.InvalidateSubsumed | hooks/api/socios/useAgregarSocioTemporada.tsx:23-25 | after invalidating a prefix, invalidating a longer key that extends it changes nothing |
| Mutations.RequestOf | hooks/api/socios/useEliminarSocioTemporada.tsx:15-18 | each mutation sends its verb to its full path: posts to the collections, `PUT /socios/{id}`, `DELETE /socios/{id}`, `PATCH` and `DELETE /temporadas/{id}` with the number rendered in decimal, the season member list for an association and the member under it for its removal |
| Mutations.RequestDeterminesMutation | hooks/api/socios/useUpdateSocio.tsx:18 | when the string ids hold no `/`, the request and body a mutation sends identify the mutation: equal requests and bodies exactly for equal mutations |
| Mutations.HooksSendDifferentRequests | hooks/api/temporadas/useDeleteTemporada.tsx:16 | two different hooks never send the same request, even `DELETE /temporadas/{id}` against a removal under a season |
| Mutations.ArgumentsReachTheRequest | hooks/api/temporadas/useUpdateTemporada.tsx:16 | two calls of the same hook with different arguments differ in their path or their body |
| Mutations.SplitAtSlash | hooks/api/socios/useEliminarSocioTemporada.tsx:16 | a path built from a segment without `/`, a slash and a tail splits back into that segment and tail |
| Mutations.DigitPathIsNotNested | hooks/api/temporadas/useDeleteTemporada.tsx:16 | a season path ending in a rendered number is never a member path under a season |
| Mutations.SocioIdBody | hooks/api/socios/useAgregarSocioTemporada.tsx:15-20 | only adding a member to a season builds a body, and that body carries the member id |
| Mutations.SuccessCacheWrites | hooks/api/socios/useCreateSocio.tsx:19-27 | the entry written on success is added to the cache and is fresh, since no invalidated prefix reaches it; mutations that write nothing keep the key set |
| Mutations.SuccessCacheMarks | hooks/api/socios/useAgregarSocioTemporada.tsx:21-28 | every other entry keeps its value and becomes stale exactly when one of the invalidated prefixes matches it |
| Mutations.InvalidatedPrefixes | hooks/api/socios/useAgregarSocioTemporada.tsx:23-25 | the key prefixes each hook invalidates on success; Mutations.TouchedByCases and Mutations.OnSuccess state what they reach |
| Mutations.WrittenKey | hooks/api/socios/useCreateSocio.tsx:23 | the key `setQueryData` writes on success, under the response id; Mutations.SuccessCacheWrites states it is fresh afterwards |
| Mutations.SuccessCache | hooks/api/socios/useCreateSocio.tsx:19-27 | the cache after a successful mutation; Mutations.SuccessCacheWrites and Mutations.SuccessCacheMarks state its effect |
| Mutations.OnSuccess | hooks/api/socios/useAgregarSocioTemporada.tsx:21-28 | a successful mutation raises its success toast, writes its entry fresh, and marks stale exactly the entries under its invalidated prefixes |
| Mutations.TouchedByCases | hooks/api/socios/useEliminarSocioTemporada.tsx:19-25 | the entries a mutation invalidates are those under its one root prefix, or under the season's two or three prefixes for the association mutations |
| Mutations.ErrorToastOf | hooks/api/temporadas/useUpdateTemporada.tsx:27-31 | member and season-creation failures show the adapted title and message; association failures show fixed texts; season update and delete show the backend message or their fallback |
| Mutations.Settle | hooks/api/socios/useDeleteSocio.tsx:13-27 | a failed mutation leaves the cache unchanged and raises the error toast; a successful one runs `onSuccess` |
| Mutations.RemovalLeavesAvailableListFresh | hooks/api/socios/useEliminarSocioTemporada.tsx:19-25 | adding a member to a season marks the shared member lists stale, while removing one leaves them exactly as they were |
| Mutations.RemovalSecondInvalidationIsDead | hooks/api/socios/useEliminarSocioTemporada.tsx:21-22 | on every key a read hook uses, the `"socios-disponibles"` invalidation reaches nothing |
| Mutations.UpdateSocioKeepsSeasonLists | hooks/api/socios/useUpdateSocio.tsx:19-27 | updating a member leaves every season's member list untouched |
| Mutations.DeleteSocioKeepsSocioEntry | hooks/api/socios/useDeleteSocio.tsx:14-20 | deleting a member leaves the cached single-member entry as it was |
| Mutations.DeleteTemporadaFacts | hooks/api/temporadas/useDeleteTemporada.tsx:17-24 | deleting a season stores the delete response as fresh data and leaves every season member list, the deleted one included, as it was |
| Mutations.AgregarOnlyItsSeason | hooks/api/socios/useAgregarSocioTemporada.tsx:23 | adding to one season leaves the member lists of every other season untouched |
| Mutations.UpdateWritesReadKeyIff | hooks/api/socios/useUpdateSocio.tsx:23 | the entry an update writes is the one `useSocioById(n)` reads exactly when the response id is the number `n` |
| Mutations.UpdateTemporadaFallbackText | hooks/api/temporadas/useUpdateTemporada.tsx:28 | a failed season update without a backend message reports a creation failure |
| QueryHooks.SociosDisponiblesTemporadaOptions | hooks/api/temporadas/useSociosDisponiblesTemporada.tsx:6-12 | the season variant keeps the `"socios"` key root and page size 10, and reaches a season-specific endpoint only for a truthy season id, the empty url otherwise |
| QueryHooks.ListKeysCollide | hooks/api/temporadas/useSociosDisponiblesTemporada.tsx:8 | the three paginated member hooks share one key space: for equal page, limit and search they read the same entry, whatever the season |
| QueryHooks.CollidingEndpointsDiffer | hooks/api/temporadas/useSociosDisponiblesTemporada.tsx:9 | yet two different seasons, and the plain member list, are fetched from different endpoints |
| QueryHooks.SocioByIdRequest | hooks/api/socios/useSocios.tsx:22-30 | the single-member query is a `GET` of `/socios/` followed by the decimal id |
| QueryHooks.SocioByIdRequestInjective | hooks/api/socios/useSocios.tsx:22-30 | two members are read from the same path exactly when their ids are equal |
| QueryHooks.SocioKeyOutsideListRoot | hooks/api/socios/useSocios.tsx:24 | the single-member key is not under the list root `"socios"` |
| QueryHooks.SocioByIdKey | hooks/api/socios/useSocios.tsx:24 | the single-member key is `["socio", id]`, carrying the numeric id |
| QueryHooks.SociosTemporadaKey | hooks/api/socios/useSociosTemporada.tsx:12 | the season member-list key is `["socios-temporada", t]`, carrying the season id |
| QueryHooks.SociosTemporadaQueryFn | hooks/api/socios/useSociosTemporada.tsx:10-21 | without a season id the query answers `[]` at once, exactly when it is disabled; otherwise it fetches the season's member list |
| QueryHooks.ListKeysExact | hooks/api/common/usePaginatedSearchQuery.ts:46 | the list keys are exactly the keys of the paginated hooks' states |
| QueryHooks.HookKeysComplete | hooks/api/socios/useSociosTemporada.tsx:12 | every key of every read hook is one of the described hook keys |
| QueryHooks.SociosDisponiblesPrefixIsDead | hooks/api/socios/useSociosDisponiblesInfinite.tsx:31 | no read hook uses the root `"socios-disponibles"`, so invalidating under it reaches nothing |
| QueryHooks.TemporadaRootIsUnread | hooks/api/temporadas/useTemporadas.tsx:5-13 | no read hook uses the root `"temporada"`, so what the season mutations write there is never read |
| Infinite.KeyOf | hooks/api/socios/useSociosDisponiblesInfinite.tsx:31 | the key has four atoms under the root `"socios-disponibles-infinite"` and carries the season and the limit |
| Infinite.KeyInjective | hooks/api/socios/useSociosDisponiblesInfinite.tsx:31 | different arguments never share a cache entry |
| Infinite.Enabled | hooks/api/socios/useSociosDisponiblesInfinite.tsx:60 | the query runs only for a non-empty season id |
| Infinite.EmptyPage | hooks/api/socios/useSociosDisponiblesInfinite.tsx:34-46 | the page answered without a season holds no members, no pages, no neighbours, and reports page 1 of the requested size |
| Infinite.QueryFn | hooks/api/socios/useSociosDisponiblesInfinite.tsx:32-60 | with no season the query answers the empty page, exactly when disabled; otherwise it requests the season's available members for the given page and limit, with a search parameter exactly for a truthy search |
| Infinite.NextPageParam | hooks/api/socios/useSociosDisponiblesInfinite.tsx:62-67 | a next page exists exactly when the server reports one, and it is the page after the last loaded |
| Infinite.FlattenAppend | hooks/api/socios/useSociosDisponiblesInfinite.tsx:72-74 | loading one more page appends exactly its members |
| Infinite.FlattenCons | hooks/api/socios/useSociosDisponiblesInfinite.tsx:72-74 | the flattened list puts the front page's members first |
| Infinite.FlattenMembership | hooks/api/socios/useSociosDisponiblesInfinite.tsx:72-74 | a member is listed exactly when some loaded page holds it |
| Infinite.FlattenLength | hooks/api/socios/useSociosDisponiblesInfinite.tsx:72-74 | the flattened list is as long as the loaded pages together |
| Infinite.LastPagination | hooks/api/socios/useSociosDisponiblesInfinite.tsx:77-80 | the pagination block is present exactly when a page is loaded, and is the last page's |
| Infinite.AllSocios | hooks/api/socios/useSociosDisponiblesInfinite.tsx:72-74 | without data the list is empty; with pages it is their members in page order |
| PaginatedQuery.SetSearch | hooks/api/common/usePaginatedSearchQuery.ts:29-34 | a new search is stored verbatim, keeps the limit and returns to page 1 from any page past it |
| PaginatedQuery.SetPage | hooks/api/common/usePaginatedSearchQuery.ts:36-38 | a page change never goes below 1 and otherwise lands on the requested page |
| PaginatedQuery.HandleLimitChange | hooks/api/common/usePaginatedSearchQuery.ts:40-43 | a limit change stores the limit and returns to page 1, keeping the search |
| PaginatedQuery.KeyOf | hooks/api/common/usePaginatedSearchQuery.ts:46 | the key has four atoms under the hook's root |
| PaginatedQuery.KeyInjective | hooks/api/common/usePaginatedSearchQuery.ts:46 | two keys are equal exactly when the roots and the whole page, limit and search states are |
| PaginatedQuery.ParamsOf | hooks/api/common/usePaginatedSearchQuery.ts:49-53 | page and limit are always sent, the search only when non-empty |
| PaginatedQuery.ViewOf | hooks/api/common/usePaginatedSearchQuery.ts:61-80 | before a response the list is empty with no pages; the page count rounds the total up; a next page exists exactly below the page count and a previous one exactly past page 1 |
| PaginatedQuery.NextPage | hooks/api/common/usePaginatedSearchQuery.ts:71 | `nextPage` moves forward one page only when the view shows a next page |
| PaginatedQuery.PrevPage | hooks/api/common/usePaginatedSearchQuery.ts:72 | `prevPage` moves back one page only from past page 1, never below it |
| PaginatedQuery.RunKeepsPagePositive | hooks/api/common/usePaginatedSearchQuery.ts:25-43 | every sequence of actions from a valid state keeps the page at least 1 and the limit positive |
| PaginatedQuery.SetPageUnbounded | hooks/api/common/usePaginatedSearchQuery.ts:36-38 | the page setter has no upper clamp: a page past the last is kept |
| PaginatedQuery.Init | hooks/api/common/usePaginatedSearchQuery.ts:25-27 | the list starts on page 1 with the initial limit and no search term |
| PaginatedQuery.Step | hooks/api/common/usePaginatedSearchQuery.ts:29-43 | each user action applies its setter; PaginatedQuery.RunKeepsPagePositive shows no sequence of them leaves page 1 behind |
| AvailableMembers.Call | hooks/use-available-members.ts:13-16 | calling the debounced function leaves exactly one pending invocation, with the new arguments |
| AvailableMembers.Cancel | hooks/use-available-members.ts:18-20 | cancelling leaves nothing pending |
| AvailableMembers.Expire | hooks/use-available-members.ts:15 | when the timer expires the wrapped function runs with the pending arguments and nothing stays pending |
| AvailableMembers.LatestCallWins | hooks/use-available-members.ts:8-23 | after a burst of calls only the latest arguments are pending, and they are what runs |
| AvailableMembers.ParamsFor | hooks/use-available-members.ts:46-50 | every request asks for the given page at the default page size, and carries the term exactly when its UTF-16 length reaches the minimum search length |
| AvailableMembers.Fresh | hooks/use-available-members.ts:27-32 | the initial state keeps the machine's invariant and holds no members, pagination or error |
| AvailableMembers.FetchSocios | hooks/use-available-members.ts:34-42 | without a season nothing is requested and the results are cleared; with one, the request goes to the season's endpoint, loading starts and the error is cleared |
| AvailableMembers.SearchEffect | hooks/use-available-members.ts:92-111 | after cancelling the pending search, a trimmed term long enough in UTF-16 units is armed, a shorter non-blank one clears the results with no request, and a blank one fetches the current page; the invariant is kept |
| AvailableMembers.BlankSearchEffect | hooks/use-available-members.ts:92-111 | with an empty term, the search effect cancels the pending search and fetches the current page with no search |
| AvailableMembers.FailureMessage | hooks/use-available-members.ts:62-70 | a non-JSON error body reads "Error desconocido", a JSON body its truthy message or "Error en la API", and a rejected fetch its error message or "Error desconocido" |
| AvailableMembers.Apply | hooks/use-available-members.ts:56-79 | an answer ends loading; a success stores its members (or none) and its pagination, a failure clears both and records the message; term, page and timer are kept |
| AvailableMembers.Mount | hooks/use-available-members.ts:92-125 | mounting with a season requests page 1 with no search twice, once from each effect; without one it requests nothing and clears everything |
| AvailableMembers.SeasonEffect | hooks/use-available-members.ts:113-125 | with a season, the effect leaves page 1, the empty term and nothing pending, and every request it causes is for page 1 of that season with no search |
| AvailableMembers.ChangeSeason | hooks/use-available-members.ts:34-125 | a new `idTemporada` re-runs both effects: every request goes to the new season; with a season the hook ends on page 1 with an empty term, no pending search and a last request for page 1 without search; without one it requests nothing and clears members, pagination and error; the same id changes nothing |
| AvailableMembers.MountIsSeasonChange | hooks/use-available-members.ts:92-125 | mounting with a season is the same as changing from no season to it |
| AvailableMembers.ChangeTerm | hooks/use-available-members.ts:136-143 | a term over the maximum UTF-16 length changes nothing; any other becomes the stored term; the page and the invariant are kept |
| AvailableMembers.ChangePage | hooks/use-available-members.ts:127-134 | a refused page changes nothing; an accepted one becomes current and is requested at once with the trimmed term, and a new page while a trimmed term of at least the minimum UTF-16 length is in force re-arms that search |
| AvailableMembers.FireSearch | hooks/use-available-members.ts:83-89 | the debounced search returns to page 1 and requests page 1 with the pending term; leaving another page re-arms the same search |
| AvailableMembers.Clear | hooks/use-available-members.ts:150-153 | clearing leaves the empty term on page 1 with nothing pending |
| AvailableMembers.Step | hooks/use-available-members.ts:26-153 | a season change sets the season and every other event keeps it; no event issues a request while no season is set, and none breaks the invariant |
| AvailableMembers.RunValid | hooks/use-available-members.ts:26-186 | from a valid state, every sequence of events keeps the page at least 1, the term within the maximum length and the pending search trimmed and long enough |
| AvailableMembers.NoSeasonNoRequests | hooks/use-available-members.ts:35-39 | without a season, no sequence of events that passes in no season issues a request |
| AvailableMembers.LongTermIgnored | hooks/use-available-members.ts:138-140 | a term over the maximum UTF-16 length leaves the state as it was and requests nothing |
| AvailableMembers.PageGuard | hooks/use-available-members.ts:127-134 | a refused page leaves the state as it was; an accepted one becomes current and is requested with the trimmed term |
| AvailableMembers.ShortTermClears | hooks/use-available-members.ts:97-100 | a non-blank trimmed term below the minimum UTF-16 length clears the results with no request and nothing pending |
| AvailableMembers.SettledSearchFetchesFirstPage | hooks/use-available-members.ts:84-87 | when the debounced search runs, the page returns to 1 and page 1 is requested with the pending term |
| AvailableMembers.FailureClearsResults | hooks/use-available-members.ts:67-79 | a failed request leaves no members, no pagination, an error message and loading ended |
| AvailableMembers.PageChangeDuringSearchReverts | hooks/use-available-members.ts:83-134 | while a trimmed term of at least the minimum UTF-16 length is in force, choosing another page requests it but re-arms the search, whose firing returns to page 1 and requests page 1 again |
| AvailableMembers.DerivedOf | hooks/use-available-members.ts:156-160 | the derived flags and counts come from the pagination block, falling back to `false` and `0` when there is none; there are results exactly when members are listed |
| ErrorHandler.FetchErrorMessage | lib/error-handler.ts:40-80 | the message is never empty: 400 keeps a truthy body message or falls back to the validation text; 401, 404, 408 and 422 use their fixed texts; 409 names a duplicate DNI or email by code and otherwise keeps the body message or the server text; every other status gets the server text |
| ErrorHandler.HandleFetchError | lib/error-handler.ts:40-83 | always throws an `ApiError` carrying the response status, the body's code and the message chosen by status |
| ErrorHandler.FetchErrorMessageOrigin | lib/error-handler.ts:40-80 | every message thrown is the body's own message or one of the module's fixed texts |
| ErrorHandler.HandleNetworkError | lib/error-handler.ts:86-99 | always throws an `ApiError`: a fetch `TypeError` becomes the network error with status 0, an `ApiError` is rethrown as is, any other `Error` keeps its message with status 500, and a non-`Error` gets the server text |
| ErrorHandler.FormatErrorForUser | lib/error-handler.ts:110-124 | any `Error` shows its own message; anything else shows the server text |
| ErrorHandler.HandleWith | lib/error-handler.ts:134-145 | the created handler returns the formatted message and passes that same message to the callback exactly when one was given |
| ErrorHandler.ValidateApiResponse | lib/error-handler.ts:102-107 | exactly the truthy objects, arrays included, pass through unchanged; everything else is rejected with a validation error |
| ErrorHandler.RetryWithBackoff | lib/error-handler.ts:148-177 | `fn` is called at most `maxRetries + 1` times; every call but the last failed with a retryable error and was followed by a wait of `baseDelay · 2^k`; the result is the last call's value or error, and a failure stops early only on status 400, 401, 403 or 422 |
| ErrorHandler.TotalDelay | lib/error-handler.ts:171 | `n` waits add up to `baseDelay · (2^n − 1)` |
| ErrorHandler.DefaultSchedule | lib/error-handler.ts:150-151 | with the defaults the waits are 1, 2 and 4 seconds, 7 seconds in all |
| MockData.SocioById | lib/mock-data.ts:348-350 | the lookup finds nothing exactly when no socio carries the id, and otherwise returns the first socio that does; a socio without an id never matches |
| MockData.TemporadaById | lib/mock-data.ts:352-354 | the same for seasons |
| MockData.AsociacionesByTemporada | lib/mock-data.ts:356-358 | exactly the season's associations, in table order, each as often as in the table |
| MockData.AsociacionesBySocio | lib/mock-data.ts:360-362 | exactly the socio's associations, in table order, each as often as in the table |
| MockData.SocioIdsOf | lib/mock-data.ts:365-367 | the id list holds exactly the socio ids of the given associations |
| MockData.AssociatedIds | lib/mock-data.ts:365-367 | an id is listed exactly when some association ties that socio to the season |
| MockData.SociosDisponibles | lib/mock-data.ts:364-373 | the offered socios are, in table order, exactly the active ones with a non-empty id that no association ties to the season, each as often as the table holds it |
| MockData.DisponiblesDisjoint | lib/mock-data.ts:364-373 | no socio is offered to a season it already belongs to |
| MockData.RegistrosEnRango | lib/mock-data.ts:375-377 | exactly the entries whose date string lies between the bounds, both included, in table order and each as often as the table holds it |
| MockData.EstadisticasEnRango | lib/mock-data.ts:379-381 | exactly the daily statistics whose date string lies between the bounds, both included, in table order and each as often as the table holds it |
| MockData.RangeInclusive | lib/mock-data.ts:375-377 | a one-day range returns exactly that day's entries |
| MockData.LookupOwnId | lib/mock-data.ts:348-350 | with unique ids, looking a socio up by its own id gives that socio back |
| MockData.LookupAvailable | lib/mock-data.ts:348-373 | every socio offered for a season can be looked up by its id |
| MockData.NumberedIdsUnique | lib/mock-data.ts:6-111 | socios numbered 1 to 9 in table order have unique ids |
| MockData.SociosResolveByIndex | lib/mock-data.ts:146-231 | associations resolve when each one's socio id is carried by a socio at a known position |
| MockData.TemporadasResolveByIndex | lib/mock-data.ts:146-231 | associations resolve when each one's season id is carried by a season at a known position |
| MockData.MockSocioIdsUnique | lib/mock-data.ts:6-111 | the shipped socios have unique ids |
| MockData.MockSociosResolve | lib/mock-data.ts:146-231 | every shipped association points at a shipped socio |
| MockData.MockTemporadasResolve | lib/mock-data.ts:146-231 | every shipped association points at a shipped season |
| MockData.MockSeasonsOrdered | lib/mock-data.ts:114-143 | every shipped season starts before it ends |
| MockData.MockConsistent | lib/mock-data.ts:6-231 | the shipped tables are consistent: unique socio ids, resolving associations and ordered seasons |
| AssociationManagement.LatestIndex | components/association-management.tsx:60-66 | the season the descending sort by start date puts first has the greatest start date, and every earlier season starts strictly before it, so it is the first of the latest-starting ones |
| AssociationManagement.LatestIsLast | components/association-management.tsx:62-65 | when the last season starts after the best of the others, it starts after every other season |
| AssociationManagement.AutoSelect | components/association-management.tsx:53-71 | the auto-selection is either the previous selection or the non-empty id of some season, and with no seasons the selection is kept |
| AssociationManagement.AutoSelectCurrent | components/association-management.tsx:54-59 | the first current season is selected when it has an id |
| AssociationManagement.AutoSelectLatest | components/association-management.tsx:60-69 | with no current season, the first of the latest-starting seasons is selected when it has an id |
| AssociationManagement.CurrentWithoutIdFallsThrough | components/association-management.tsx:58-60 | when the first current season, at whatever position, has no id, the latest-starting season is chosen instead, or the current selection is kept when that one has no id either |
| AssociationManagement.Selected | components/association-management.tsx:73-75 | the selected season carries the selected id, and none is found exactly when no season carries it |
| AssociationManagement.CanManage | components/association-management.tsx:73-80 | managing is allowed exactly when `find` selects a season, the first carrying the id, and its end date is not past |
| AssociationManagement.CanManageByIndex | components/association-management.tsx:73-80 | with unique ids, a season at any position that carries the selected id can be managed exactly when its end date is not past |
| AssociationManagement.AutoSelectedCurrentIsManageable | components/association-management.tsx:53-80 | with unique ids, a current season chosen by the auto-selection can be managed |
| AssociationManagement.AddMember | components/association-management.tsx:82-89 | adding sends the association mutation for the selected season exactly when a season is selected |
| AssociationManagement.RemoveMember | components/association-management.tsx:91-103 | a season that cannot be managed refuses removal with an error toast; otherwise removal is sent exactly when a season is selected, with no toast |
| AssociationManagement.NoRemovalAfterEnd | components/association-management.tsx:78-95 | a season whose end date is past never sends a removal |
| AssociationManagement.FilterMembers | components/association-management.tsx:106-124 | a blank term keeps every member; any other keeps, in order and with their multiplicities, exactly the members whose full name, DNI or truthy email contains the lower-cased, untrimmed term |
| AssociationManagement.MatchesTerm | components/association-management.tsx:112-119 | a member matches when the lower-cased full name, the DNI or a truthy email contains the term |
| AssociationManagement.TrailingSpaceMatchesFullName | components/association-management.tsx:109-115 | the term is not trimmed, so a trailing space still matches across the space between first and last name |
| AssociationManagement.Window | components/association-management.tsx:128-131 | for a non-negative start the slice is the list's window from the start, clamped to the list, at most one page long |
| AssociationManagement.PageOf | components/association-management.tsx:126-131 | the shown page is the window starting after the previous pages, at most one page long |
| AssociationManagement.PagesUpToPrefix | components/association-management.tsx:126-131 | the first `m` pages together are the first `m` pages' worth of the list |
| AssociationManagement.WindowExtendsPrefix | components/association-management.tsx:127-131 | a page's window continues the list exactly where the previous pages end |
| AssociationManagement.PageBeyondLastIsEmpty | components/association-management.tsx:126-131 | a page past the last one shows nothing |
| AssociationManagement.PagesCoverList | components/association-management.tsx:126-131 | read page by page up to the page count, the pages hold every filtered member exactly once, in order |
| AssociationManagement.Init | components/association-management.tsx:31-36 | the screen starts with no selection, on page 1, with the default page size of 10 and an empty search |
| AssociationManagement.Step | components/association-management.tsx:133-136 | only a page-size change resets the page; a new search term or season keeps the page and the page size |
| AssociationManagement.Shown | components/association-management.tsx:106-131 | the list shows at most one page of the season's own members |
| AssociationManagement.NarrowedSearchCanEmptyThePage | components/association-management.tsx:106-131 | narrowing the search keeps the page number, so the current page can fall past the last one and show nothing |
| AssociationForm.Init | components/association-form.tsx:23-25 | the form starts with nothing selected and no errors |
| AssociationForm.ActiveSocios | components/association-form.tsx:28 | the offered members are, in order, exactly the active ones, each as often as the list holds it |
| AssociationForm.AvailableSeasons | components/association-form.tsx:29-32 | the offered seasons are, in order, exactly those whose end date is not past, each as often as the list holds it |
| AssociationForm.CurrentSeasonOffered | components/association-form.tsx:29-32 | a current season is always offered |
| AssociationForm.SubmitDisabledIff | components/association-form.tsx:158 | the submit button is disabled exactly when no member is active or every season has ended |
| AssociationForm.Validate | components/association-form.tsx:34-58 | a missing member or season is reported as a required field, and an active association for the pair as a duplicate, the latter only when both are chosen |
| AssociationForm.Submit | components/association-form.tsx:60-68 | submitting replaces the errors with a fresh validation and submits the pair exactly when both are chosen and no active association for them exists, that is exactly when no error is left |
| AssociationForm.InactiveDoesNotBlock | components/association-form.tsx:45-53 | an inactive association for the pair never blocks a new one |
| AssociationForm.ChangeSocio | components/association-form.tsx:70-75 | choosing a member stores it and hides the member and general errors, keeping the season error |
| AssociationForm.ChangeTemporada | components/association-form.tsx:77-82 | choosing a season stores it and hides the season and general errors, keeping the member error |
| AssociationForm.SubmitIgnoresOldErrors | components/association-form.tsx:34-68 | the outcome of a submit depends only on the selections, never on the errors shown before |
| SeasonStatus.BannerFor | components/association/season-status-alert.tsx:11-46 | no season shows nothing; an ended season shows the ended banner, and only an ended one does; the manage banner shows exactly for a season that has not ended and has started or is in the future |
| SeasonStatus.NoBannerIff | components/association/season-status-alert.tsx:18-45 | a present season shows nothing exactly when its start date does not parse and it has not ended |
| SeasonStatus.EndedBeatsFuture | components/association/season-status-alert.tsx:23-34 | a reversed season whose end has passed shows as ended, even before its start |
| SeasonStatus.LastDayDisagreesWithGuard | components/association/season-status-alert.tsx:16-18 | on a season's last day, after midnight, the banner says the season has ended while the day-based manage guard still allows changes |
| Lists.Filter | lib/mock-data.ts:357 | `filter` keeps, in order, exactly the elements satisfying the predicate, each as often as in the input |
| Lists.Find | lib/mock-data.ts:349 | `find` returns nothing exactly when no element satisfies the predicate, and otherwise the first that does |
| Lists.Slice | components/association-management.tsx:128-131 | `slice` returns at most the elements between the clamped bounds: the exact window when both bounds lie inside the list, nothing from a start past the end |
| Mutations.SuccessToastOf | hooks/api/socios/useDeleteSocio.tsx:15-17 | every success toast is a success notice without description, titled with its hook's success message; it stays 3000 ms exactly for a member delete, 5000 ms exactly for a season create or update, and the default time otherwise |
| Mutations.SuccessTitleIdentifiesHook | lib/constants.ts:88-97 | two success toasts share a title exactly when they come from the same hook |
| Dates.Format | lib/utils/date.ts:8 | the text of a valid day is a well-formed `YYYY-MM-DD` string |
| DebouncedSearch.MountEmission | hooks/use-search.ts:30-39 | on mount the callback receives the initial value exactly when there is a callback and the value reaches the minimum in UTF-16 units or is empty |

## Left out

- Rendering: all JSX and the presentational components (member and season management screens, member list, add-member dialog, season selector, forms, sidebar, layouts, statistics view). Their only logic is display arithmetic, already covered by the pager.
- Network and session plumbing: the Axios instance and its 401 redirect interceptor, token storage, the auth service, `useLogin`/`useLogout`, the statistics API and `useDailyStats`. These are I/O against browser globals; requests appear here only as values.
- TanStack Query internals: stale-time and garbage-collection expiry, `placeholderData`, request de-duplication, background refetching and the ordering of concurrent responses. Only the prefix invalidation and `setQueryData` effects are represented. The stale-time settings appear only as constants.
- Real time: `withTimeout` (lib/error-handler.ts:180-190) is not modelled. The waits of `retryWithBackoff` are returned as computed delays. Debounce timers are events.
- Logging: `logError` and every `console` call are left out, since they have no effect on state.
- PDF export, photo cropping, time-zone formatting of entry times and the infinite-scroll observer: these are canvas, floating-point, third-party and browser APIs.
- Dates.FormatDate: the locale rendering `toLocaleDateString("es-ES")` is a parameter; only the style dispatch and the Invalid Date case are modelled.
- TemporadaSchema.DateIssue: the `new Date(val)` validity test is modelled by `Dates.ParseDateSafe`. Strings in other formats that engines accept, such as `2024/01/15`, and out-of-range days that engines roll over are rejected here, although the source accepts them.
- Dates.ParseDateSafe: accepts exactly the `YYYY-MM-DD` strings that name a real calendar day. JavaScript engines also accept other formats and differ on out-of-range days, and that leniency is not modelled.
- SeasonStatus.BannerFor: `new Date()` is an instant parameter, and a date-only string is the midnight that opens its day. Both are read in one time frame; the UTC-versus-local offset of `new Date(s)` is not modelled.
- Text.Lower: lower-cases ASCII letters only; Unicode case folding is not modelled.
- Text.Utf16Length: strings are sequences of Unicode scalar values, so the lone surrogates a JavaScript string can hold are not modelled.
- SocioSchema.BirthIssue: `new Date(val)` is modelled on the `YYYY-MM-DD` strings that name a real day, read as UTC midnight; the other formats engines accept, and their handling of out-of-range days, are not modelled. The clock's UTC offset is one fixed value, so a daylight-saving change between the birth date and today is not modelled either.
- AssociationManagement.LatestIndex: `localeCompare` is modelled as code-unit string order. The two agree on `YYYY-MM-DD` strings, which are the only strings sorted.
- Pagination.TotalPages: requires a positive page size. With a page size of 0 the source computes an infinite page count in floating point, which integers cannot express; the same holds for PaginatedQuery.ViewOf and AssociationManagement.PageOf.
- AssociationManagement.Step: the page size from `parseInt` is taken as an integer; a `NaN` page size is not modelled.
- SocioSchema.Issues and TemporadaSchema.Issues report only the first failing check of each field. zod may list several issues for one field, but the forms show one message per field.
- MockData.Mock: `getMockSocios` and `getMockTemporadas` return the tables unchanged, so the tables themselves stand for them.
- ErrorAdapter.ParseApiError: the `timestamp` field of `ApiError` comes from the clock and is left out. The body's `message` is a string or absent; a truthy non-string message, such as the string array of a validation error, which the source passes through `data.message || …`, is read as absent.
- Mutations.ErrorToastOf: the body's `message` is a string or absent. The source's `data?.message ?? …` passes any value that is not null or undefined, including a string array and falsy values such as `0` or `false`; the model reads such a value as absent and shows the fallback text. An empty string is passed through, as in the source.
- ErrorHandler.FetchErrorMessage: likewise, a truthy non-string `message` in the error body is read as absent, where `errorData?.message || …` passes it through.
- AvailableMembers.FailureMessage: likewise, a truthy non-string `message` in the error body is read as absent, where `new Error(errorData.message || …)` would turn it into text.
- Toasts.Toast: the `position` option of a toast (`top-center` in the member delete hook) is placement, left out with the rest of the rendering.
- AvailableMembers.ChangeSeason: answers still in flight for the previous season are applied when they arrive, as in the source; their ordering against the new season's answers is not modelled.
- ErrorHandler.RetryWithBackoff: `fn` is given as the outcome of each attempt. A promise that never settles is not modelled.
- Mutations.RequestOf: the `FormData` bodies of the member mutations and the JSON bodies of the season mutations are passed through unread; only the association body built in the hook is modelled.
- Infinite: `fetchNextPage`, `hasNextPage` and `isFetchingNextPage` come from TanStack Query and are not modelled beyond `NextPageParam`.

## Behaviour worth noting

- `usePaginatedSearchQuery` keys its cache entries on the raw search term, so every keystroke is a new key.
- `useSearch` measures the raw term, untrimmed, both in `isValidSearch` and in the emission rule.
- Invalidation matches key prefixes: invalidating `["socios"]` reaches every paginated member list of every hook that uses the `"socios"` root, but not `["socio", id]`.
