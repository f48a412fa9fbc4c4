/**
 The keep-alive scheduler: which contexts are due, how often the agent wakes, and how old a session gets.

 Times and durations are nanoseconds. The clock, the stored rotation times and the outcome of a rotation
 are parameters.
 */
module KeepAlive {
  import opened Options
  import opened Sequences
  import opened Sorting

  const SECOND: int := 1_000_000_000
  const MINUTE: int := 60 * SECOND
  const HOUR: int := 60 * MINUTE

  const MIN_WINDOW: int := MINUTE
  const MAX_WINDOW: int := 144 * HOUR

  const DERIVED_MIN: int := 15 * MINUTE
  const DERIVED_MAX: int := 12 * HOUR

  /** A live-window setting once parsed: absent, unusable, or a duration within the bounds. */
  datatype LiveWindow = Unset | Invalid | Window(d: int)

  predicate InBounds(w: LiveWindow) {
    w.Window? ==> MIN_WINDOW <= w.d <= MAX_WINDOW
  }

  /** A context of the configuration; one without a Grafana section has nothing to keep alive. */
  datatype Context = NoGrafana | WithGrafana(window: LiveWindow)

  /** The contexts by name; a name may stand for nothing. */
  type Config = map<string, Option<Context>>

  ghost predicate ValidConfig(cfg: Config) {
    forall name | name in cfg && cfg[name].Some? && cfg[name].value.WithGrafana? :: InBounds(cfg[name].value.window)
  }

  /** The window of a context that opted in. */
  function WindowOf(cfg: Config, name: string): Option<int> {
    if name in cfg && cfg[name].Some? && cfg[name].value.WithGrafana? && cfg[name].value.window.Window? then
      Some(cfg[name].value.window.d)
    else None
  }

  predicate HasInvalidWindow(cfg: Config, name: string) {
    name in cfg && cfg[name].Some? && cfg[name].value.WithGrafana? && cfg[name].value.window.Invalid?
  }

  /** Half the smallest window, within the derived bounds. */
  function DeriveInterval(minWindow: int): (interval: int)
    requires minWindow >= 0
    ensures DERIVED_MIN <= interval <= DERIVED_MAX
    ensures minWindow <= 2 * DERIVED_MIN ==> interval == DERIVED_MIN
    ensures minWindow >= 2 * DERIVED_MAX ==> interval == DERIVED_MAX
    ensures 2 * DERIVED_MIN <= minWindow <= 2 * DERIVED_MAX ==> 2 * interval <= minWindow <= 2 * interval + 1
  {
    var half := minWindow / 2;
    if half < DERIVED_MIN then DERIVED_MIN else if half > DERIVED_MAX then DERIVED_MAX else half
  }

  // ---------------------------------------------------------------------------------------------
  // Selecting contexts
  // ---------------------------------------------------------------------------------------------

  /** The names in sorted order, each once. */
  ghost predicate IsNameList(names: seq<string>, cfg: Config) {
    && IsSorted(names, StringLeq)
    && Distinct(names)
    && (forall name :: name in names <==> name in cfg)
  }

  method SortedContextNames(cfg: Config) returns (names: seq<string>)
    ensures IsNameList(names, cfg)
  {
    names := [];
    var left := cfg.Keys;
    while left != {}
      invariant left <= cfg.Keys
      invariant forall name :: name in names <==> name in cfg && name !in left
      invariant Distinct(names)
      decreases |left|
    {
      var name :| name in left;
      left := left - {name};
      names := names + [name];
    }
    SortedNames(names);
    names := Sort(names, StringLeq);
  }

  lemma SortedNames(names: seq<string>)
    requires Distinct(names)
    ensures var sorted := Sort(names, StringLeq);
            IsSorted(sorted, StringLeq) && Distinct(sorted) && forall name :: name in sorted <==> name in names
  {
    hide Sort, Distinct;
    StringLeqIsTotalPreorder();
    SortSorts(names, StringLeq);
    SortPermutes(names, StringLeq);
    SortHasSameElements(names, StringLeq);
    PermutedIsDistinct(names, Sort(names, StringLeq));
  }

  /** min is the smallest window among the names, if one of them opted in. */
  ghost predicate IsMinAmong(cfg: Config, names: seq<string>, min: int, found: bool) {
    && (!found ==> forall name | name in names :: WindowOf(cfg, name).None?)
    && (found ==> exists name :: name in names && WindowOf(cfg, name) == Some(min))
    && (found ==> forall name | name in names && WindowOf(cfg, name).Some? :: min <= WindowOf(cfg, name).value)
  }

  lemma OneMoreName(cfg: Config, names: seq<string>, name: string, min: int, found: bool)
    requires IsMinAmong(cfg, names, min, found)
    ensures var w := WindowOf(cfg, name);
            IsMinAmong(cfg, names + [name], if w.Some? && (!found || w.value < min) then w.value else min,
                       found || w.Some?)
  {
    hide WindowOf;
    assert forall n :: n in names + [name] <==> n in names || n == name;
    if found {
      var n :| n in names && WindowOf(cfg, n) == Some(min);
      assert n in names + [name];
    }
    assert name in names + [name];
  }

  /** The smallest window any context opted in with, if one did. */
  method MinLiveWindowAcrossContexts(cfg: Config) returns (min: int, found: bool, warnings: seq<string>)
    ensures found <==> exists name :: WindowOf(cfg, name).Some?
    ensures found ==> IsMinWindow(cfg, min)
    ensures forall name :: name in warnings <==> HasInvalidWindow(cfg, name)
  {
    min, found, warnings := 0, false, [];
    var names := SortedContextNames(cfg);
    for i := 0 to |names|
      invariant IsMinAmong(cfg, names[..i], min, found)
      invariant forall name :: name in warnings <==> name in names[..i] && HasInvalidWindow(cfg, name)
    {
      hide IsMinAmong;
      var name := names[i];
      assert names[..i + 1] == names[..i] + [name];
      OneMoreName(cfg, names[..i], name, min, found);
      var context := cfg[name];
      if context.Some? && context.value.WithGrafana? {
        match context.value.window {
          case Invalid => warnings := warnings + [name];
          case Unset =>
          case Window(window) =>
            if !found || window < min {
              min, found := window, true;
            }
        }
      }
    }
    assert names[..|names|] == names;
    MinOfAll(cfg, names, min, found);
  }

  /** min is the smallest window of the configuration. */
  ghost predicate IsMinWindow(cfg: Config, min: int) {
    (exists name :: WindowOf(cfg, name) == Some(min))
        && forall name | WindowOf(cfg, name).Some? :: min <= WindowOf(cfg, name).value
  }

  lemma MinOfAll(cfg: Config, names: seq<string>, min: int, found: bool)
    requires IsMinAmong(cfg, names, min, found) && forall name :: name in names <==> name in cfg
    ensures found <==> exists name :: WindowOf(cfg, name).Some?
    ensures found ==> IsMinWindow(cfg, min)
  {
    if found {
      var n :| n in names && WindowOf(cfg, n) == Some(min);
    }
  }

  /** When the stored cookie of a context was last written. */
  datatype ModifiedAt = At(t: int) | NotFound | Unreadable

  /** The context opted in and its last rotation is at least its window old. */
  predicate IsDue(cfg: Config, now: int, modified: string -> ModifiedAt, name: string) {
    WindowOf(cfg, name).Some? && modified(name).At? && now - modified(name).t >= WindowOf(cfg, name).value
  }

  /** Something about the context is worth a warning; a cookie that was never stored is not. */
  predicate Warns(cfg: Config, modified: string -> ModifiedAt, name: string) {
    HasInvalidWindow(cfg, name) || (WindowOf(cfg, name).Some? && modified(name).Unreadable?)
  }

  /** A warning is due for an unusable window, and for an unreadable time where there is a window to compare it with. */
  lemma WarnsIsExact(cfg: Config, modified: string -> ModifiedAt, name: string)
    ensures Warns(cfg, modified, name) <==>
            && name in cfg
            && (cfg[name] == Some(WithGrafana(Invalid))
                || exists d :: cfg[name] == Some(WithGrafana(Window(d))) && modified(name) == Unreadable)
  {
  }

  lemma NamesBefore(names: seq<string>, cfg: Config, i: nat, name: string)
    requires IsNameList(names, cfg) && i < |names| && name in names[..i]
    ensures StringLeq(name, names[i]) && name != names[i]
  {
    hide StringLeq;
    var j :| 0 <= j < i && names[j] == name;
  }

  /** Exactly the due contexts, sorted by name, each once; one bad context never stops the others. */
  method DueContexts(cfg: Config, now: int, modified: string -> ModifiedAt)
    returns (due: seq<string>, warnings: seq<string>)
    ensures forall name :: name in due <==> IsDue(cfg, now, modified, name)
    ensures forall i, j | 0 <= i < j < |due| :: StringLeq(due[i], due[j]) && due[i] != due[j]
    ensures forall name :: name in warnings <==> Warns(cfg, modified, name)
  {
    hide StringLeq;
    due, warnings := [], [];
    var names := SortedContextNames(cfg);
    for i := 0 to |names|
      invariant forall name :: name in due <==> name in names[..i] && IsDue(cfg, now, modified, name)
      invariant forall name :: name in warnings <==> name in names[..i] && Warns(cfg, modified, name)
      invariant forall j, k | 0 <= j < k < |due| :: StringLeq(due[j], due[k]) && due[j] != due[k]
    {
      var name := names[i];
      hide IsSorted, Distinct;
      assert names[..i + 1] == names[..i] + [name];
      assert forall n :: n in names[..i + 1] <==> n in names[..i] || n == name;
      forall j | 0 <= j < |due| ensures StringLeq(due[j], name) && due[j] != name {
        assert due[j] in due;
        NamesBefore(names, cfg, i, due[j]);
      }
      var context := cfg[name];
      if context.Some? && context.value.WithGrafana? {
        match context.value.window {
          case Invalid => warnings := warnings + [name];
          case Unset =>
          case Window(window) =>
            match modified(name) {
              case NotFound =>
              case Unreadable => warnings := warnings + [name];
              case At(t) =>
                if now - t >= window {
                  due := due + [name];
                }
            }
        }
      }
    }
    assert names[..|names|] == names;
  }

  // ---------------------------------------------------------------------------------------------
  // Runs of the agent
  // ---------------------------------------------------------------------------------------------

  /** The contexts with a stored cookie and when each was last rotated. */
  type Rotations = map<string, int>

  function Stored(last: Rotations): string -> ModifiedAt {
    name => if name in last then At(last[name]) else NotFound
  }

  /** A wake of the agent: the due contexts are rotated, but for those whose rotation fails. */
  function Woken(cfg: Config, last: Rotations, now: int, failing: set<string>): Rotations {
    map name | name in last :: if IsDue(cfg, now, Stored(last), name) && name !in failing then now else last[name]
  }

  class Keychain {
    var last: Rotations

    constructor (last: Rotations)
      ensures this.last == last
    {
      this.last := last;
    }

    /** One run of the agent: every due context is attempted, the others are left alone, and a failure is reported. */
    method RunDue(cfg: Config, now: int, failing: set<string>) returns (ok: bool)
      modifies this
      ensures last == Woken(cfg, old(last), now, failing)
      ensures ok <==> forall name | IsDue(cfg, now, Stored(old(last)), name) :: name !in failing
    {
      hide *;
      var due, warnings := DueContexts(cfg, now, Stored(last));
      ghost var start := last;
      ok := true;
      NoneRotated(start, now, failing);
      assert due[..0] == [];
      for i := 0 to |due|
        invariant Rotating(start, last, due[..i], now, failing, ok)
      {
        assert due[..i + 1] == due[..i] + [due[i]];
        RotateOne(start, last, due[..i], due[i], now, failing, ok);
        if due[i] in failing {
          ok := false;
        } else {
          last := last[due[i] := now];
        }
      }
      assert due[..|due|] == due;
      AllRotated(cfg, start, last, due, now, failing, ok);
    }
  }

  /** The attempts of the names so far. */
  ghost predicate Rotating(start: Rotations, last: Rotations, done: seq<string>, now: int, failing: set<string>,
                           ok: bool) {
    && last.Keys == start.Keys + (set name | name in done && name !in failing)
    && (forall name | name in last :: last[name] == if name in done && name !in failing then now else start[name])
    && (ok <==> forall name | name in done :: name !in failing)
  }

  lemma NoneRotated(start: Rotations, now: int, failing: set<string>)
    ensures Rotating(start, start, [], now, failing, true)
  {
  }

  lemma RotateOne(start: Rotations, last: Rotations, done: seq<string>, name: string, now: int, failing: set<string>,
                  ok: bool)
    requires Rotating(start, last, done, now, failing, ok)
    ensures Rotating(start, if name in failing then last else last[name := now], done + [name], now, failing,
                     ok && name !in failing)
  {
    assert forall n :: n in done + [name] <==> n in done || n == name;
  }

  lemma AllRotated(cfg: Config, start: Rotations, last: Rotations, due: seq<string>, now: int, failing: set<string>,
                   ok: bool)
    requires Rotating(start, last, due, now, failing, ok)
    requires forall name :: name in due <==> IsDue(cfg, now, Stored(start), name)
    ensures last == Woken(cfg, start, now, failing)
    ensures ok <==> forall name | IsDue(cfg, now, Stored(start), name) :: name !in failing
  {
    hide IsDue;
    forall name | name in due ensures name in start {
      DueIsStored(cfg, now, start, name);
    }
  }

  lemma DueIsStored(cfg: Config, now: int, last: Rotations, name: string)
    requires IsDue(cfg, now, Stored(last), name)
    ensures name in last
  {
  }

  /**
   What happens: a wake and whose rotations fail at it, or a rotation or login of one context outside the
   schedule.
   */
  datatype Event = Wake(time: int, failing: set<string>) | Rotated(time: int, name: string)

  /**
   The stored rotations, the clock, the last wake, and the due contexts whose rotation failed at it and that
   were not renewed since.
   */
  datatype State = State(last: Rotations, now: int, woke: Option<int>, failed: set<string>)

  /** Time goes forward, and the next wake comes no later than one interval after the last. */
  predicate Allowed(s: State, e: Event, interval: int) {
    s.now <= e.time && (s.woke.Some? ==> e.time <= s.woke.value + interval)
  }

  function Next(cfg: Config, s: State, e: Event): State {
    match e
    case Wake(t, failing) => State(Woken(cfg, s.last, t, failing), t, Some(t),
                                   set name | name in failing && IsDue(cfg, t, Stored(s.last), name))
    case Rotated(t, name) => s.(last := s.last[name := t], now := t, failed := s.failed - {name})
  }

  ghost predicate Runs(cfg: Config, s: State, events: seq<Event>, interval: int)
    decreases |events|
  {
    events == [] || (Allowed(s, events[0], interval) && Runs(cfg, Next(cfg, s, events[0]), events[1..], interval))
  }

  function After(cfg: Config, s: State, events: seq<Event>): State
    decreases |events|
  {
    if events == [] then s else After(cfg, Next(cfg, s, events[0]), events[1..])
  }

  /**
   After the last wake no opted-in session was as old as its window, but for those that failed at it and were
   not renewed since.
   */
  predicate Fresh(cfg: Config, s: State) {
    s.woke.Some? ==>
      s.woke.value <= s.now
      && forall name | name in s.last && WindowOf(cfg, name).Some? && name !in s.failed ::
         s.woke.value - s.last[name] < WindowOf(cfg, name).value
  }

  lemma StepKeepsFresh(cfg: Config, s: State, e: Event, interval: int)
    requires ValidConfig(cfg) && Fresh(cfg, s) && Allowed(s, e, interval)
    ensures Fresh(cfg, Next(cfg, s, e))
  {
    forall name | WindowOf(cfg, name).Some? ensures WindowOf(cfg, name).value >= MIN_WINDOW > 0 {
      assert InBounds(cfg[name].value.window);
    }
  }

  lemma {:induction false} RunKeepsFresh(cfg: Config, s: State, events: seq<Event>, interval: int)
    requires ValidConfig(cfg) && Fresh(cfg, s) && Runs(cfg, s, events, interval)
    ensures Fresh(cfg, After(cfg, s, events))
    decreases |events|
  {
    hide Fresh, Next, Allowed;
    if events != [] {
      StepKeepsFresh(cfg, s, events[0], interval);
      RunKeepsFresh(cfg, Next(cfg, s, events[0]), events[1..], interval);
    }
  }

  /**
   A moment of a run, from any stored rotation times: the agent has woken and goes on doing so within the
   interval derived from the smallest window, and the opted-in context did not fail at the last wake, or was
   renewed since.
   */
  ghost predicate Moment(cfg: Config, start: State, events: seq<Event>, min: int, name: string, time: int) {
    && ValidConfig(cfg) && IsMinWindow(cfg, min) && start.woke.None?
    && min >= 0 && Runs(cfg, start, events, DeriveInterval(min))
    && var s := After(cfg, start, events);
       && s.woke.Some? && s.now <= time <= s.woke.value + DeriveInterval(min)
       && name in s.last && WindowOf(cfg, name).Some? && name !in s.failed
  }

  /** The age of the session at that moment. */
  ghost function Age(cfg: Config, start: State, events: seq<Event>, min: int, name: string, time: int): int
    requires Moment(cfg, start, events, min, name, time)
  {
    time - After(cfg, start, events).last[name]
  }

  /** Freshness over every run: the age of an opted-in session stays below its window plus the interval. */
  lemma SessionsStayFresh(cfg: Config, start: State, events: seq<Event>, min: int, name: string, time: int)
    requires Moment(cfg, start, events, min, name, time)
    ensures var age, window := Age(cfg, start, events, min, name, time), WindowOf(cfg, name).value;
            age < window + DeriveInterval(min) && (min >= 30 * MINUTE - 1 ==> 2 * age < 3 * window)
  {
    hide Runs, After, ValidConfig;
    RunKeepsFresh(cfg, start, events, DeriveInterval(min));
  }

  /** In every run every session stays younger than one and a half windows. */
  ghost predicate NoRunOverruns(min: int) {
    forall cfg, start, events, name, time | Moment(cfg, start, events, min, name, time) ::
      2 * Age(cfg, start, events, min, name, time) < 3 * WindowOf(cfg, name).value
  }

  /**
   With a shorter smallest window a session just short of it at a wake is one and a half windows old before the
   next.
   */
  lemma ShortWindowsOverrun(min: int)
    requires MIN_WINDOW <= min <= 30 * MINUTE - 2
    ensures !NoRunOverruns(min)
  {
    var cfg: Config := map["c" := Some(WithGrafana(Window(min)))];
    var start := State(map["c" := 1 - min], 0, None, {});
    var wake := Wake(0, {});
    var events := [wake];
    assert WindowOf(cfg, "c") == Some(min);
    var s := Next(cfg, start, wake);
    assert !IsDue(cfg, 0, Stored(start.last), "c") && s.last["c"] == 1 - min && s.woke == Some(0);
    assert events[1..] == [];
    assert Runs(cfg, s, [], DeriveInterval(min)) && After(cfg, s, []) == s;
    assert After(cfg, start, events) == s && Runs(cfg, start, events, DeriveInterval(min));
    assert Moment(cfg, start, events, min, "c", DERIVED_MIN);
    assert 2 * Age(cfg, start, events, min, "c", DERIVED_MIN) >= 3 * min;
  }

  /** Exactly from 30 minutes, to the nanosecond before, no session outlives one and a half windows. */
  lemma OneAndAHalfWindowsExactly(min: int)
    requires MIN_WINDOW <= min <= MAX_WINDOW
    ensures NoRunOverruns(min) <==> min >= 30 * MINUTE - 1
  {
    if min >= 30 * MINUTE - 1 {
      forall cfg, start, events, name, time | Moment(cfg, start, events, min, name, time)
        ensures 2 * Age(cfg, start, events, min, name, time) < 3 * WindowOf(cfg, name).value
      {
        SessionsStayFresh(cfg, start, events, min, name, time);
      }
    } else {
      ShortWindowsOverrun(min);
    }
  }
}
