/**
 The single-flight rotation protocol of the shared session source, as a step system over any number
 of goroutines.

 The mutex-guarded fields form a `Core`. The functions `EnterRotate`, `PublishOutcome` and
 `CloseDone` are the three critical sections of a rotation; the class in SessionSource.dfy runs the
 same sections on real fields. Everything outside the mutex (waiting, the network call, the retry)
 is a step of one goroutine, so a run is any interleaving of such steps.
 */
module SessionProtocol {
  import opened Options

  type Cookie = string

  /** What the network call did. A panic is recovered into an error by the deferred function. */
  datatype Outcome = Answered(cookie: Cookie) | Refused | Panicked

  datatype RotateResult = Rotated(cookie: Cookie) | RotateError

  function Recovered(outcome: Outcome): RotateResult {
    match outcome
    case Answered(cookie) => Rotated(cookie)
    case Refused => RotateError
    case Panicked => RotateError
  }

  /** One rotateCall: the two result fields and whether its channel is closed. */
  datatype CallRecord = CallRecord(cookie: Cookie, err: bool, done: bool)

  /** The fields the mutex guards. `inflight` is an index into `calls`, every call ever made. */
  datatype Core = Core(cookie: Cookie, gen: nat, inflight: Option<nat>, calls: seq<CallRecord>)

  /** What the first critical section of Rotate decides. */
  datatype Entry = ShortCircuit(cookie: Cookie) | Join(call: nat) | Lead(call: nat, cookie: Cookie)

  function EnterRotate(c: Core, usedGen: nat): (Core, Entry) {
    if c.gen > usedGen then (c, ShortCircuit(c.cookie))
    else if c.inflight.Some? then (c, Join(c.inflight.value))
    else (c.(inflight := Some(|c.calls|), calls := c.calls + [CallRecord("", false, false)]),
          Lead(|c.calls|, c.cookie))
  }

  function ResultOf(call: CallRecord): RotateResult {
    if call.err then RotateError else Rotated(call.cookie)
  }

  function PublishOutcome(c: Core, call: nat, result: RotateResult): Core
    requires call < |c.calls|
  {
    var record := CallRecord(if result.Rotated? then result.cookie else "", result.RotateError?, c.calls[call].done);
    var published := c.(calls := c.calls[call := record], inflight := None);
    if result.Rotated? then published.(cookie := result.cookie, gen := c.gen + 1) else published
  }

  function CloseDone(c: Core, call: nat): Core
    requires call < |c.calls|
  {
    c.(calls := c.calls[call := c.calls[call].(done := true)])
  }

  // ---------------------------------------------------------------------------------------------
  // The step system
  // ---------------------------------------------------------------------------------------------

  /** One request sent to Grafana: the cookie it carried and the generation that cookie belongs to. */
  datatype Attempt = Attempt(gen: nat, cookie: Cookie)

  /**
   Where one goroutine stands. `attempts` are the requests of the RoundTrip it is in (none for a
   Refresh), `used` the generation it read from Current.
   */
  datatype Phase =
    | Idle
    | Sent(attempts: seq<Attempt>)
    | Stale(used: nat, attempts: seq<Attempt>)
    | Waiting(used: nat, attempts: seq<Attempt>, call: nat)
    | Leading(used: nat, attempts: seq<Attempt>, call: nat, cookie: Cookie)
    | Finishing(used: nat, attempts: seq<Attempt>, call: nat, result: RotateResult)
    | Closing(used: nat, attempts: seq<Attempt>, call: nat, result: RotateResult)
    | Persisting(used: nat, attempts: seq<Attempt>, cookie: Cookie, gen: nat)
    | Returned(used: nat, attempts: seq<Attempt>, result: RotateResult, gen: nat)
    | Retried(attempts: seq<Attempt>)

  /** Who started a call, and at which generation. */
  datatype Origin = Origin(owner: nat, base: nat)

  /**
   The guarded fields with two records the code does not keep: `history[g]` is the cookie of
   generation g, and `origins[k]` says who started `core.calls[k]` and at which generation.
   */
  datatype Shared = Shared(core: Core, history: seq<Cookie>, origins: seq<Origin>)

  /** A global state: what is shared, what reached the Keychain, and where every goroutine stands. */
  datatype State = State(shared: Shared, persisted: seq<Cookie>, threads: seq<Phase>)

  datatype Action =
    | BeginRequest(t: nat)
    | BeginRefresh(t: nat)
    | FirstAnswered(t: nat, unauthorized: bool)
    | Enter(t: nat)
    | NetworkReturned(t: nat, outcome: Outcome)
    | Publish(t: nat)
    | Close(t: nat)
    | Persist(t: nat, stored: bool)
    | Wake(t: nat)
    | Resume(t: nat, replayable: bool)
    | RetryAnswered(t: nat)

  function Initial(cookie: Cookie, goroutines: nat): State {
    State(Shared(Core(cookie, 0, None, []), [cookie], []), [], seq(goroutines, _ => Idle))
  }

  predicate Enabled(s: State, a: Action) {
    && a.t < |s.threads|
    && var p := s.threads[a.t];
       match a
       case BeginRequest(_) => p.Idle?
       case BeginRefresh(_) => p.Idle?
       case FirstAnswered(_, _) => p.Sent? && |p.attempts| > 0
       case Enter(_) => p.Stale?
       case NetworkReturned(_, _) => p.Leading?
       case Publish(_) => p.Finishing? && p.call < |s.shared.core.calls|
       case Close(_) => p.Closing? && p.call < |s.shared.core.calls|
       case Persist(_, _) => p.Persisting?
       case Wake(_) => p.Waiting? && p.call < |s.shared.core.calls| && s.shared.core.calls[p.call].done
           && p.call < |s.shared.origins|
       case Resume(_, _) => p.Returned?
       case RetryAnswered(_) => p.Retried?
  }

  function Step(s: State, a: Action): State
    requires Enabled(s, a)
  {
    var p := s.threads[a.t];
    match a
    case BeginRequest(t) => Goto(s, t, Sent([Attempt(s.shared.core.gen, s.shared.core.cookie)]))
    case BeginRefresh(t) => Goto(s, t, Stale(s.shared.core.gen, []))
    case FirstAnswered(t, unauthorized) =>
      Goto(s, t, if unauthorized then Stale(p.attempts[0].gen, p.attempts) else Idle)
    case Enter(t) =>
      var (core, entry) := EnterRotate(s.shared.core, p.used);
      (match entry
       case ShortCircuit(cookie) => Goto(s, t, Returned(p.used, p.attempts, Rotated(cookie), s.shared.core.gen))
       case Join(call) => Goto(s, t, Waiting(p.used, p.attempts, call))
       case Lead(call, cookie) =>
         Goto(s.(shared := s.shared.(core := core, origins := s.shared.origins + [Origin(t, s.shared.core.gen)])), t,
              Leading(p.used, p.attempts, call, cookie)))
    case NetworkReturned(t, outcome) => Goto(s, t, Finishing(p.used, p.attempts, p.call, Recovered(outcome)))
    case Publish(t) =>
      Goto(s.(shared := s.shared.(
             core := PublishOutcome(s.shared.core, p.call, p.result),
             history := if p.result.Rotated? then s.shared.history + [p.result.cookie] else s.shared.history)), t,
           Closing(p.used, p.attempts, p.call, p.result))
    case Close(t) =>
      Goto(s.(shared := s.shared.(core := CloseDone(s.shared.core, p.call))), t,
           if p.result.Rotated? && p.call < |s.shared.origins|
           then Persisting(p.used, p.attempts, p.result.cookie, s.shared.origins[p.call].base + 1)
           else Returned(p.used, p.attempts, RotateError, 0))
    case Persist(t, stored) =>
      Goto(s.(persisted := if stored then s.persisted + [p.cookie] else s.persisted), t,
           Returned(p.used, p.attempts, Rotated(p.cookie), p.gen))
    case Wake(t) =>
      Goto(s, t, Returned(p.used, p.attempts, ResultOf(s.shared.core.calls[p.call]), s.shared.origins[p.call].base + 1))
    case Resume(t, replayable) =>
      Goto(s, t, if p.result.Rotated? && replayable && p.attempts != []
                 then Retried(p.attempts + [Attempt(p.gen, p.result.cookie)]) else Idle)
    case RetryAnswered(t) => Goto(s, t, Idle)
  }

  function Goto(s: State, t: nat, p: Phase): State
    requires t < |s.threads|
  {
    s.(threads := s.threads[t := p])
  }

  /** Every action of the trace is enabled when its turn comes. */
  predicate Admissible(s: State, trace: seq<Action>)
    decreases |trace|
  {
    trace == [] || (Enabled(s, trace[0]) && Admissible(Step(s, trace[0]), trace[1..]))
  }

  function Execute(s: State, trace: seq<Action>): State
    requires Admissible(s, trace)
    decreases |trace|
  {
    if trace == [] then s else Execute(Step(s, trace[0]), trace[1..])
  }

  // ---------------------------------------------------------------------------------------------
  // The inductive invariant
  // ---------------------------------------------------------------------------------------------

  /** The goroutine is between entering Rotate as a leader and closing its call. */
  predicate BoundTo(p: Phase, call: nat) {
    (p.Leading? || p.Finishing? || p.Closing?) && p.call == call
  }

  /** The goroutine leads a rotation whose result is not published yet. */
  predicate InFlight(p: Phase) {
    p.Leading? || p.Finishing?
  }

  predicate KnownCookie(g: Shared, gen: nat, cookie: Cookie) {
    gen < |g.history| && g.history[gen] == cookie
  }

  predicate AttemptsOk(g: Shared, attempts: seq<Attempt>) {
    && |attempts| <= 2
    && (forall i | 0 <= i < |attempts| :: KnownCookie(g, attempts[i].gen, attempts[i].cookie))
    && (|attempts| == 2 ==> attempts[0].gen < attempts[1].gen)
  }

  /** The first attempt, if there is one, carried the generation handed to Rotate. */
  predicate StaleOk(g: Shared, used: nat, attempts: seq<Attempt>) {
    && used < |g.history|
    && |attempts| <= 1
    && (|attempts| == 1 ==> attempts[0].gen == used && KnownCookie(g, used, attempts[0].cookie))
  }

  predicate CallOk(g: Shared, used: nat, call: nat) {
    call < |g.origins| == |g.core.calls| && g.origins[call].base == used
  }

  predicate PhaseOk(g: Shared, t: nat, p: Phase)
  {
    match p
    case Idle => true
    case Sent(attempts) => |attempts| == 1 && AttemptsOk(g, attempts)
    case Stale(used, attempts) => StaleOk(g, used, attempts)
    case Waiting(used, attempts, call) => StaleOk(g, used, attempts) && CallOk(g, used, call)
    case Leading(used, attempts, call, cookie) =>
      && StaleOk(g, used, attempts) && CallOk(g, used, call)
      && g.core.inflight == Some(call) && used == g.core.gen && cookie == g.core.cookie
      && g.origins[call].owner == t && !g.core.calls[call].done
    case Finishing(used, attempts, call, result) =>
      && StaleOk(g, used, attempts) && CallOk(g, used, call)
      && g.core.inflight == Some(call) && used == g.core.gen
      && g.origins[call].owner == t && !g.core.calls[call].done
    case Closing(used, attempts, call, result) =>
      && StaleOk(g, used, attempts) && CallOk(g, used, call)
      && g.origins[call].owner == t && !g.core.calls[call].done
      && ResultOf(g.core.calls[call]) == result
      && (result.Rotated? ==> KnownCookie(g, used + 1, result.cookie))
    case Persisting(used, attempts, cookie, gen) =>
      StaleOk(g, used, attempts) && used < gen && KnownCookie(g, gen, cookie)
    case Returned(used, attempts, result, gen) =>
      StaleOk(g, used, attempts) && (result.Rotated? ==> used < gen && KnownCookie(g, gen, result.cookie))
    case Retried(attempts) => |attempts| == 2 && AttemptsOk(g, attempts)
  }

  predicate CallRecordOk(s: State, k: nat)
    requires k < |s.shared.core.calls| == |s.shared.origins|
  {
    && s.shared.origins[k].owner < |s.threads|
    && (!s.shared.core.calls[k].done ==> BoundTo(s.threads[s.shared.origins[k].owner], k))
    && (s.shared.core.calls[k].done && !s.shared.core.calls[k].err ==>
          KnownCookie(s.shared, s.shared.origins[k].base + 1, s.shared.core.calls[k].cookie))
  }

  ghost predicate Inv(s: State) {
    && |s.shared.history| == s.shared.core.gen + 1
    && s.shared.history[s.shared.core.gen] == s.shared.core.cookie
    && |s.shared.origins| == |s.shared.core.calls|
    && (s.shared.core.inflight.Some? ==>
          && s.shared.core.inflight.value < |s.shared.core.calls|
          && var owner := s.shared.origins[s.shared.core.inflight.value].owner;
             owner < |s.threads| && InFlight(s.threads[owner]) && s.threads[owner].call == s.shared.core.inflight.value)
    && (forall t | 0 <= t < |s.threads| :: PhaseOk(s.shared, t, s.threads[t]))
    && (forall k | 0 <= k < |s.shared.core.calls| :: CallRecordOk(s, k))
    && (forall i | 0 <= i < |s.persisted| :: s.persisted[i] in s.shared.history[1..])
  }

  lemma InitialHolds(cookie: Cookie, goroutines: nat)
    ensures Inv(Initial(cookie, goroutines))
  {
  }

  lemma EnterOwnPhase(s: State, a: Action)
    requires Inv(s) && Enabled(s, a) && a.Enter?
    ensures PhaseOk(Step(s, a).shared, a.t, Step(s, a).threads[a.t])
  {
    assert PhaseOk(s.shared, a.t, s.threads[a.t]);
    var entry := EnterRotate(s.shared.core, s.threads[a.t].used).1;
    if entry.Join? {
      var owner := s.shared.origins[entry.call].owner;
      assert PhaseOk(s.shared, owner, s.threads[owner]);
    }
  }

  lemma EnterOtherPhase(s: State, a: Action, t: nat)
    requires Inv(s) && Enabled(s, a) && a.Enter? && t < |s.threads| && t != a.t
    ensures PhaseOk(Step(s, a).shared, t, Step(s, a).threads[t])
  {
    assert PhaseOk(s.shared, t, s.threads[t]) && PhaseOk(s.shared, a.t, s.threads[a.t]);
  }

  /** Entering Rotate can only add a call, so every other goroutine stays where it was. */
  lemma EnterKeepsPhase(s: State, a: Action, t: nat)
    requires Inv(s) && Enabled(s, a) && a.Enter? && t < |s.threads|
    ensures PhaseOk(Step(s, a).shared, t, Step(s, a).threads[t])
  {
    hide *;
    if t == a.t {
      EnterOwnPhase(s, a);
    } else {
      EnterOtherPhase(s, a, t);
    }
  }

  lemma PublishOwnPhase(s: State, a: Action)
    requires Inv(s) && Enabled(s, a) && a.Publish?
    ensures PhaseOk(Step(s, a).shared, a.t, Step(s, a).threads[a.t])
  {
    assert PhaseOk(s.shared, a.t, s.threads[a.t]);
  }

  lemma PublishOtherPhase(s: State, a: Action, t: nat)
    requires Inv(s) && Enabled(s, a) && a.Publish? && t < |s.threads| && t != a.t
    ensures PhaseOk(Step(s, a).shared, t, Step(s, a).threads[t])
  {
    assert PhaseOk(s.shared, t, s.threads[t]) && PhaseOk(s.shared, a.t, s.threads[a.t]);
  }

  /** Publishing advances the generation: nobody else is in flight, so nobody else depended on it. */
  lemma PublishKeepsPhase(s: State, a: Action, t: nat)
    requires Inv(s) && Enabled(s, a) && a.Publish? && t < |s.threads|
    ensures PhaseOk(Step(s, a).shared, t, Step(s, a).threads[t])
  {
    hide *;
    if t == a.t {
      PublishOwnPhase(s, a);
    } else {
      PublishOtherPhase(s, a, t);
    }
  }

  lemma CloseOwnPhase(s: State, a: Action)
    requires Inv(s) && Enabled(s, a) && a.Close?
    ensures PhaseOk(Step(s, a).shared, a.t, Step(s, a).threads[a.t])
  {
    assert PhaseOk(s.shared, a.t, s.threads[a.t]);
  }

  lemma CloseOtherPhase(s: State, a: Action, t: nat)
    requires Inv(s) && Enabled(s, a) && a.Close? && t < |s.threads| && t != a.t
    ensures PhaseOk(Step(s, a).shared, t, Step(s, a).threads[t])
  {
    assert PhaseOk(s.shared, t, s.threads[t]) && PhaseOk(s.shared, a.t, s.threads[a.t]);
  }

  lemma CloseKeepsPhase(s: State, a: Action, t: nat)
    requires Inv(s) && Enabled(s, a) && a.Close? && t < |s.threads|
    ensures PhaseOk(Step(s, a).shared, t, Step(s, a).threads[t])
  {
    hide *;
    if t == a.t {
      CloseOwnPhase(s, a);
    } else {
      CloseOtherPhase(s, a, t);
    }
  }

  lemma RequestStepKeepsPhase(s: State, a: Action)
    requires Inv(s) && Enabled(s, a)
    requires a.BeginRequest? || a.BeginRefresh? || a.FirstAnswered? || a.Resume? || a.RetryAnswered?
    ensures PhaseOk(Step(s, a).shared, a.t, Step(s, a).threads[a.t])
  {
    assert PhaseOk(s.shared, a.t, s.threads[a.t]);
  }

  lemma RotateStepKeepsPhase(s: State, a: Action)
    requires Inv(s) && Enabled(s, a)
    requires a.NetworkReturned? || a.Persist? || a.Wake?
    ensures PhaseOk(Step(s, a).shared, a.t, Step(s, a).threads[a.t])
  {
    assert PhaseOk(s.shared, a.t, s.threads[a.t]);
    if a.Wake? {
      assert CallRecordOk(s, s.threads[a.t].call);
    }
  }

  lemma InvPhase(s: State, t: nat)
    requires Inv(s) && t < |s.threads|
    ensures PhaseOk(s.shared, t, s.threads[t])
  {
  }

  /** A step by goroutine a.t leaves every goroutine where its phase allows it to be. */
  lemma StepKeepsPhase(s: State, a: Action, t: nat)
    requires Inv(s) && Enabled(s, a) && t < |s.threads|
    ensures PhaseOk(Step(s, a).shared, t, Step(s, a).threads[t])
  {
    hide Inv, CallRecordOk;
    InvPhase(s, t);
    match a {
      case Enter(_) => EnterKeepsPhase(s, a, t);
      case Publish(_) => PublishKeepsPhase(s, a, t);
      case Close(_) => CloseKeepsPhase(s, a, t);
      case _ =>
        if t != a.t {
          assert Step(s, a).shared == s.shared && Step(s, a).threads[t] == s.threads[t];
        } else if a.NetworkReturned? || a.Persist? || a.Wake? {
          RotateStepKeepsPhase(s, a);
        } else {
          RequestStepKeepsPhase(s, a);
        }
    }
  }

  lemma EnterKeepsCall(s: State, a: Action, k: nat)
    requires Inv(s) && Enabled(s, a) && a.Enter?
    requires k < |Step(s, a).shared.core.calls| == |Step(s, a).shared.origins|
    ensures CallRecordOk(Step(s, a), k)
  {
    assert PhaseOk(s.shared, a.t, s.threads[a.t]);
    if k < |s.shared.core.calls| {
      assert CallRecordOk(s, k);
    }
  }

  lemma PublishKeepsCall(s: State, a: Action, k: nat)
    requires Inv(s) && Enabled(s, a) && a.Publish?
    requires k < |Step(s, a).shared.core.calls| == |Step(s, a).shared.origins|
    ensures CallRecordOk(Step(s, a), k)
  {
    assert PhaseOk(s.shared, a.t, s.threads[a.t]);
    if k < |s.shared.core.calls| {
      assert CallRecordOk(s, k);
    }
  }

  lemma CloseKeepsCall(s: State, a: Action, k: nat)
    requires Inv(s) && Enabled(s, a) && a.Close?
    requires k < |Step(s, a).shared.core.calls| == |Step(s, a).shared.origins|
    ensures CallRecordOk(Step(s, a), k)
  {
    assert PhaseOk(s.shared, a.t, s.threads[a.t]);
    if k < |s.shared.core.calls| {
      assert CallRecordOk(s, k);
    }
  }

  lemma OtherStepKeepsCall(s: State, a: Action, k: nat)
    requires Inv(s) && Enabled(s, a) && !a.Enter? && !a.Publish? && !a.Close?
    requires k < |Step(s, a).shared.core.calls| == |Step(s, a).shared.origins|
    ensures CallRecordOk(Step(s, a), k)
  {
    assert PhaseOk(s.shared, a.t, s.threads[a.t]);
    if k < |s.shared.core.calls| {
      assert CallRecordOk(s, k);
    }
  }

  lemma StepKeepsCall(s: State, a: Action, k: nat)
    requires Inv(s) && Enabled(s, a) && k < |Step(s, a).shared.core.calls| == |Step(s, a).shared.origins|
    ensures CallRecordOk(Step(s, a), k)
  {
    hide *;
    match a {
      case Enter(_) => EnterKeepsCall(s, a, k);
      case Publish(_) => PublishKeepsCall(s, a, k);
      case Close(_) => CloseKeepsCall(s, a, k);
      case _ => OtherStepKeepsCall(s, a, k);
    }
  }

  lemma StepKeepsPersisted(s: State, a: Action)
    requires Inv(s) && Enabled(s, a)
    ensures forall i | 0 <= i < |Step(s, a).persisted| :: Step(s, a).persisted[i] in Step(s, a).shared.history[1..]
  {
    assert PhaseOk(s.shared, a.t, s.threads[a.t]);
    assert s.shared.history[1..] <= Step(s, a).shared.history[1..];
    if a.Persist? {
      assert s.shared.history[1..][s.threads[a.t].gen - 1] == s.threads[a.t].cookie;
    }
  }

  /** Every step keeps the invariant, whichever goroutine takes it. */
  lemma StepKeepsInv(s: State, a: Action)
    requires Inv(s) && Enabled(s, a)
    ensures Inv(Step(s, a))
  {
    var s' := Step(s, a);
    assert PhaseOk(s.shared, a.t, s.threads[a.t]);
    forall t | 0 <= t < |s'.threads| ensures PhaseOk(s'.shared, t, s'.threads[t]) {
      StepKeepsPhase(s, a, t);
    }
    forall k | 0 <= k < |s'.shared.core.calls| ensures CallRecordOk(s', k) {
      StepKeepsCall(s, a, k);
    }
    StepKeepsPersisted(s, a);
  }
}
