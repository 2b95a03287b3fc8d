/**
 * The debounced search box of hooks/use-search.ts as a discrete-event
 * machine. The debounce delay is not a clock here: a pending timer is a
 * value, and its expiry is the event `TimerFires`. A render of the host
 * component for reasons of its own is the event `Rerender`.
 */
module DebouncedSearch {
  import opened Wrappers
  import opened Text
  import C = Constants

  /**
   * The hook's state. `timer` is the pending timeout, holding the term it
   * will copy into `debounced`; the effect that arms it captures `searchTerm`.
   */
  datatype State = State(searchTerm: string, debounced: string, timer: Option<string>)

  /**
   * The hook's options that matter to the machine; `debounceDelay` only sets
   * the timer length. `stableCallback` says whether the caller's `onSearch`
   * keeps its identity from one render to the next (a memoised callback) or
   * is a new function on every render (an inline arrow). The emission effect
   * lists `onSearch` among its dependencies, so only a stable callback lets
   * it skip the renders in which the settled term did not change.
   */
  datatype Config = Config(minLength: int, hasOnSearch: bool, stableCallback: bool)

  function DefaultConfig(hasOnSearch: bool, stableCallback: bool): (c: Config)
    ensures c.minLength == C.MinSearchLength == 2
    ensures c.hasOnSearch == hasOnSearch && c.stableCallback == stableCallback
  {
    Config(C.MinSearchLength, hasOnSearch, stableCallback)
  }

  /** A pending timer always carries the current input, and with none pending the settled term has caught up. */
  predicate Valid(s: State) {
    && (s.timer.Some? ==> s.timer.value == s.searchTerm)
    && (s.timer.None? ==> s.debounced == s.searchTerm)
  }

  /** `isSearching`. */
  predicate IsSearching(s: State) {
    s.searchTerm != s.debounced
  }

  /** `isValidSearch(term)`: a length test, in UTF-16 code units, on the raw term, nothing trimmed. */
  predicate IsValidSearch(cfg: Config, term: string) {
    Utf16Length(term) >= cfg.minLength
  }

  /** Whitespace counts towards the minimum length. */
  lemma ValidSearchDoesNotTrim(stableCallback: bool)
    ensures IsValidSearch(DefaultConfig(true, stableCallback), "  ")
  {
    assert Utf16Length("  ") == Utf16Length(" ") + 1;
  }

  /**
   * What the emission effect passes to `onSearch` when the settled term is
   * `d`: nothing without a callback; `d` when long enough; `""` for the
   * empty term, whatever the minimum length.
   */
  function Emission(cfg: Config, d: string): (r: Option<string>)
    ensures r.Some? ==> r.value == d
    ensures r.Some? <==> cfg.hasOnSearch && (IsValidSearch(cfg, d) || d == "")
  {
    if !cfg.hasOnSearch then None
    else if Utf16Length(d) >= cfg.minLength then Some(d)
    else if d == "" then Some("")
    else None
  }

  /** The asymmetry of the rule: the empty term is emitted even though it is shorter than the minimum; other short terms are not. */
  lemma EmptyAlwaysEmits(cfg: Config, d: string)
    requires cfg.hasOnSearch && cfg.minLength > 0
    ensures d == "" ==> Emission(cfg, d) == Some("")
    ensures d != "" && Utf16Length(d) < cfg.minLength ==> Emission(cfg, d) == None
  {
  }

  /** One character outside the Basic Multilingual Plane is two code units long, so it already meets the default minimum of 2. */
  lemma AstralCharMeetsMinimum(stableCallback: bool)
    ensures Emission(DefaultConfig(true, stableCallback), "\U{1F600}") == Some("\U{1F600}")
  {
    assert Utf16Length("\U{1F600}") == Utf16Length([]) + 2;
  }

  /** On mount both terms hold the initial value and the debounce effect arms a timer for it. */
  function Init(initialValue: string): (s: State)
    ensures s.searchTerm == s.debounced == initialValue
    ensures Valid(s) && !IsSearching(s)
  {
    State(initialValue, initialValue, Some(initialValue))
  }

  /**
   * The emission effect also runs once on mount, whatever the callback's
   * identity: it hands over the initial value when it is long enough or empty.
   */
  function MountEmission(cfg: Config, initialValue: string): (r: Option<string>)
    ensures r.Some? <==> cfg.hasOnSearch && (Utf16Length(initialValue) >= cfg.minLength || initialValue == "")
    ensures r.Some? ==> r.value == initialValue
  {
    Emission(cfg, Init(initialValue).debounced)
  }

  datatype Event = Change(value: string) | TimerFires | Clear | Rerender

  /**
   * One event. `Change` with the current value is a no-op (React keeps the
   * same state and the effect does not re-run); any other change cancels
   * the pending timer and arms a new one.
   */
  function Next(s: State, e: Event): (r: State)
    ensures e.Change? ==> r.searchTerm == e.value && r.debounced == s.debounced
    ensures e.Change? && e.value != s.searchTerm ==> r.timer == Some(e.value)
    ensures e.Change? && e.value == s.searchTerm ==> r == s
    ensures e.TimerFires? && s.timer.Some? ==> r == State(s.searchTerm, s.timer.value, None)
    ensures e.TimerFires? && s.timer.None? ==> r == s
    ensures e.Clear? ==> r.searchTerm == "" && r.debounced == ""
    ensures e.Clear? ==> (r.timer.Some? <==> s.searchTerm != "" || s.timer.Some?)
    ensures e.Rerender? ==> r == s
  {
    match e
    case Change(v) => if v == s.searchTerm then s else State(v, s.debounced, Some(v))
    case TimerFires => if s.timer.Some? then State(s.searchTerm, s.timer.value, None) else s
    case Clear =>
      // Clearing a non-empty input re-runs the debounce effect, which arms a timer for "".
      State("", "", if s.searchTerm != "" then Some("") else s.timer)
    case Rerender => s
  }

  /**
   * The event renders the component: the host re-rendered, or one of the two
   * state variables changed (setting a state variable to its current value
   * does not render).
   */
  predicate Renders(s: State, e: Event) {
    e.Rerender? || Next(s, e).searchTerm != s.searchTerm || Next(s, e).debounced != s.debounced
  }

  /**
   * What `onSearch` receives during the event. With a stable callback the
   * emission effect runs only when the settled term changes; with a new
   * callback on every render it runs after every render, and hands over the
   * settled term again even when it did not change.
   */
  function Emitted(cfg: Config, s: State, e: Event): (r: Option<string>)
    ensures r.Some? ==> r.value == Next(s, e).debounced
    ensures cfg.stableCallback ==>
      (r.Some? <==> Next(s, e).debounced != s.debounced && Emission(cfg, Next(s, e).debounced).Some?)
    ensures !cfg.stableCallback ==> (r.Some? <==> Renders(s, e) && Emission(cfg, Next(s, e).debounced).Some?)
  {
    var s' := Next(s, e);
    if s'.debounced != s.debounced || (!cfg.stableCallback && Renders(s, e)) then Emission(cfg, s'.debounced)
    else None
  }

  /** A render of the host changes nothing, and re-runs the callback effect exactly when the callback is not stable. */
  lemma RerenderReemits(cfg: Config, s: State)
    ensures Next(s, Rerender) == s
    ensures cfg.stableCallback ==> Emitted(cfg, s, Rerender) == None
    ensures !cfg.stableCallback ==> Emitted(cfg, s, Rerender) == Emission(cfg, s.debounced)
  {
  }

  /**
   * With an inline callback, each keystroke hands the old settled term over
   * again when it is long enough, before the new term has settled.
   */
  lemma InlineCallbackRepeatsSettledTerm(cfg: Config, s: State, v: string)
    requires cfg.hasOnSearch && !cfg.stableCallback
    requires v != s.searchTerm && IsValidSearch(cfg, s.debounced)
    ensures Emitted(cfg, s, Change(v)) == Some(s.debounced)
  {
  }

  /** Every event keeps the machine valid. */
  lemma NextValid(s: State, e: Event)
    requires Valid(s)
    ensures Valid(Next(s, e))
  {
  }

  /** With no timer pending, the hook is not searching. */
  lemma IdleIsSettled(s: State)
    requires Valid(s) && s.timer.None?
    ensures !IsSearching(s)
  {
  }

  /** Runs a sequence of events, collecting the terms passed to `onSearch`. */
  function Run(cfg: Config, s: State, es: seq<Event>): (State, seq<string>)
    decreases |es|
  {
    if es == [] then (s, [])
    else
      var out := Emitted(cfg, s, es[0]);
      var (t, rest) := Run(cfg, Next(s, es[0]), es[1..]);
      (t, (if out.Some? then [out.value] else []) + rest)
  }

  predicate AllChanges(es: seq<Event>) {
    forall i :: 0 <= i < |es| ==> es[i].Change?
  }

  /**
   * Typing never settles anything; the input holds the last value typed.
   * With a stable callback nothing is handed over; with an inline one only
   * the unchanged settled term is, again.
   */
  lemma {:induction false} BurstEmitsNothing(cfg: Config, s: State, es: seq<Event>)
    requires Valid(s) && AllChanges(es)
    ensures Valid(Run(cfg, s, es).0)
    ensures Run(cfg, s, es).0.debounced == s.debounced
    ensures cfg.stableCallback ==> Run(cfg, s, es).1 == []
    ensures forall i :: 0 <= i < |Run(cfg, s, es).1| ==> Run(cfg, s, es).1[i] == s.debounced
    ensures es != [] ==> Run(cfg, s, es).0.searchTerm == es[|es| - 1].value
    ensures es == [] ==> Run(cfg, s, es).0 == s
    decreases |es|
  {
    if es != [] {
      NextValid(s, es[0]);
      assert AllChanges(es[1..]) by {
        forall i | 0 <= i < |es[1..]| ensures es[1..][i].Change? {
          assert es[1..][i] == es[i + 1];
        }
      }
      BurstEmitsNothing(cfg, Next(s, es[0]), es[1..]);
      if es[1..] != [] {
        assert es[1..][|es[1..]| - 1] == es[|es| - 1];
      }
    }
  }

  /**
   * After a burst of typing, the timer settles exactly the last term typed.
   * The expiry hands over at most that one term, exactly when it is new and
   * passes the rule; with a stable callback it is all `onSearch` hears.
   */
  lemma {:induction false} OnlyLastTermSettles(cfg: Config, s: State, es: seq<Event>)
    requires Valid(s) && AllChanges(es) && es != []
    ensures var (t, out) := Run(cfg, s, es + [TimerFires]);
      var burst := Run(cfg, s, es).1;
      var last := es[|es| - 1].value;
      && t.debounced == last
      && t.timer.None? && !IsSearching(t)
      && |burst| <= |out| && out[..|burst|] == burst
      && (out[|burst|..] == [] || out[|burst|..] == [last])
      && (out[|burst|..] != [] <==> last != s.debounced && Emission(cfg, last).Some?)
      && (cfg.stableCallback ==> (out == [] || out == [last]))
  {
    BurstEmitsNothing(cfg, s, es);
    RunAppend(cfg, s, es, TimerFires);
    var mid := Run(cfg, s, es).0;
    assert mid.searchTerm == es[|es| - 1].value;
  }

  /** Running `es + [e]` is running `es`, then `e`. */
  lemma {:induction false} RunAppend(cfg: Config, s: State, es: seq<Event>, e: Event)
    ensures var (t, out) := Run(cfg, s, es);
      var o := Emitted(cfg, t, e);
      Run(cfg, s, es + [e]) == (Next(t, e), out + (if o.Some? then [o.value] else []))
    decreases |es|
  {
    if es == [] {
      assert es + [e] == [e];
      var o := Emitted(cfg, s, e);
      var tail := if o.Some? then [o.value] else [];
      assert Run(cfg, s, [e]) == (Next(s, e), tail + []);
      assert tail + [] == [] + tail;
    } else {
      assert (es + [e])[0] == es[0];
      assert (es + [e])[1..] == es[1..] + [e];
      RunAppend(cfg, Next(s, es[0]), es[1..], e);
      var first := Emitted(cfg, s, es[0]);
      var head := if first.Some? then [first.value] else [];
      var (t, rest) := Run(cfg, Next(s, es[0]), es[1..]);
      var o := Emitted(cfg, t, e);
      var tail := if o.Some? then [o.value] else [];
      assert Run(cfg, s, es) == (t, head + rest);
      assert Run(cfg, s, es + [e]) == (Next(t, e), head + (rest + tail));
      assert head + (rest + tail) == (head + rest) + tail;
    }
  }

  /**
   * `clearSearch` settles at once: no timer wait is needed for the empty term
   * to take effect. An already empty settled term is handed over again only
   * by an inline callback, and only when the input was not empty.
   */
  lemma ClearSettlesAtOnce(cfg: Config, s: State)
    requires cfg.hasOnSearch
    ensures !IsSearching(Next(s, Clear))
    ensures s.debounced != "" ==> Emitted(cfg, s, Clear) == Some("")
    ensures s.debounced == "" ==>
      (Emitted(cfg, s, Clear) == Some("") <==> !cfg.stableCallback && s.searchTerm != "")
    ensures Emitted(cfg, s, Clear) == None || Emitted(cfg, s, Clear) == Some("")
  {
  }

  /** Without a callback nothing is ever emitted. */
  lemma {:induction false} SilentWithoutCallback(cfg: Config, s: State, es: seq<Event>)
    requires !cfg.hasOnSearch
    ensures Run(cfg, s, es).1 == []
    decreases |es|
  {
    if es != [] {
      SilentWithoutCallback(cfg, Next(s, es[0]), es[1..]);
    }
  }
}
