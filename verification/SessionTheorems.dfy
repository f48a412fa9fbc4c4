/**
 What every run of the rotation protocol guarantees: single flight, freshness of what Rotate returns,
 at most one retry per request, no lost waiter, and completion of every request.
 */
module SessionTheorems {
  import opened Options
  import opened SessionProtocol

  /** The cookies the successful rotations of a run obtained, in the order they were published. */
  function Rotations(s: State, trace: seq<Action>): seq<Cookie>
    requires Admissible(s, trace)
    decreases |trace|
  {
    if trace == [] then []
    else
      var rest := Rotations(Step(s, trace[0]), trace[1..]);
      if trace[0].Publish? && s.threads[trace[0].t].result.Rotated?
      then [s.threads[trace[0].t].result.cookie] + rest
      else rest
  }

  lemma {:induction false} RunKeepsInv(s: State, trace: seq<Action>)
    requires Inv(s) && Admissible(s, trace)
    ensures Inv(Execute(s, trace))
    ensures |Execute(s, trace).threads| == |s.threads|
    decreases |trace|
  {
    if trace != [] {
      StepKeepsInv(s, trace[0]);
      RunKeepsInv(Step(s, trace[0]), trace[1..]);
    }
  }

  lemma {:induction false} RunAppendsRotations(s: State, trace: seq<Action>)
    requires Admissible(s, trace)
    ensures Execute(s, trace).shared.history == s.shared.history + Rotations(s, trace)
    decreases |trace|
  {
    if trace != [] {
      RunAppendsRotations(Step(s, trace[0]), trace[1..]);
    }
  }

  lemma AtMostOneInFlight(s: State, t: nat, u: nat)
    requires Inv(s) && t < |s.threads| && u < |s.threads|
    requires InFlight(s.threads[t]) && InFlight(s.threads[u])
    ensures t == u && s.shared.core.inflight == Some(s.threads[t].call)
  {
    assert PhaseOk(s.shared, t, s.threads[t]) && PhaseOk(s.shared, u, s.threads[u]);
  }

  /**
   In every interleaving, `inflight` is set exactly while one goroutine leads; the cookie that
   goroutine sends to the rotate endpoint is the current one until its result is published; and
   the generation counts the published successes, the cookie being the last of them.
   */
  lemma SingleFlight(cookie: Cookie, goroutines: nat, trace: seq<Action>)
    requires Admissible(Initial(cookie, goroutines), trace)
    ensures var init := Initial(cookie, goroutines);
            var s := Execute(init, trace);
            var cookies := [cookie] + Rotations(init, trace);
            && (forall t, u | 0 <= t < |s.threads| && 0 <= u < |s.threads| && InFlight(s.threads[t])
               && InFlight(s.threads[u]) :: t == u)
            && (s.shared.core.inflight.Some? <==> exists t :: 0 <= t < |s.threads| && InFlight(s.threads[t]))
            && (forall t | 0 <= t < |s.threads| && s.threads[t].Leading? :: s.threads[t].cookie == s.shared.core.cookie)
            && s.shared.core.gen == |cookies| - 1
            && s.shared.core.cookie == cookies[s.shared.core.gen]
  {
    var init := Initial(cookie, goroutines);
    var s := Execute(init, trace);
    InitialHolds(cookie, goroutines);
    RunKeepsInv(init, trace);
    RunAppendsRotations(init, trace);
    forall t, u | 0 <= t < |s.threads| && 0 <= u < |s.threads| && InFlight(s.threads[t]) && InFlight(s.threads[u])
      ensures t == u
    {
      AtMostOneInFlight(s, t, u);
    }
    forall t | 0 <= t < |s.threads| && InFlight(s.threads[t])
      ensures s.shared.core.inflight.Some? && (s.threads[t].Leading? ==> s.threads[t].cookie == s.shared.core.cookie)
    {
      assert PhaseOk(s.shared, t, s.threads[t]);
    }
  }

  /**
   Whoever Rotate answers - leader, waiter or short-circuit - gets the cookie of a generation newer
   than the one it had read from Current, and what reached the Keychain is a rotation's cookie.
   */
  lemma RotateReturnsNewer(cookie: Cookie, goroutines: nat, trace: seq<Action>)
    requires Admissible(Initial(cookie, goroutines), trace)
    ensures var init := Initial(cookie, goroutines);
            var s := Execute(init, trace);
            var cookies := [cookie] + Rotations(init, trace);
            && (forall t | 0 <= t < |s.threads| && s.threads[t].Returned? && s.threads[t].result.Rotated? ::
                  && s.threads[t].used < s.threads[t].gen < |cookies|
                  && s.threads[t].result.cookie == cookies[s.threads[t].gen])
            && (forall i | 0 <= i < |s.persisted| :: s.persisted[i] in Rotations(init, trace))
  {
    var init := Initial(cookie, goroutines);
    var s := Execute(init, trace);
    InitialHolds(cookie, goroutines);
    RunKeepsInv(init, trace);
    RunAppendsRotations(init, trace);
    assert s.shared.history[1..] == Rotations(init, trace);
    forall t | 0 <= t < |s.threads| && s.threads[t].Returned? && s.threads[t].result.Rotated?
      ensures s.threads[t].used < s.threads[t].gen < |s.shared.history|
      ensures s.threads[t].result.cookie == s.shared.history[s.threads[t].gen]
    {
      assert PhaseOk(s.shared, t, s.threads[t]);
    }
  }

  function AttemptsOf(p: Phase): seq<Attempt> {
    if p.Idle? then [] else p.attempts
  }

  /** A RoundTrip sends its request at most twice, and the retry carries a strictly newer cookie. */
  lemma AtMostOneRetry(cookie: Cookie, goroutines: nat, trace: seq<Action>, t: nat)
    requires Admissible(Initial(cookie, goroutines), trace) && t < goroutines
    ensures var init := Initial(cookie, goroutines);
            var s := Execute(init, trace);
            var cookies := [cookie] + Rotations(init, trace);
            && t < |s.threads|
            && var attempts := AttemptsOf(s.threads[t]);
               && |attempts| <= 2
               && (forall i | 0 <= i < |attempts| ::
                     attempts[i].gen < |cookies| && attempts[i].cookie == cookies[attempts[i].gen])
               && (|attempts| == 2 ==> attempts[0].gen < attempts[1].gen)
  {
    var init := Initial(cookie, goroutines);
    InitialHolds(cookie, goroutines);
    RunKeepsInv(init, trace);
    RunAppendsRotations(init, trace);
    var s := Execute(init, trace);
    assert PhaseOk(s.shared, t, s.threads[t]);
  }

  // ---------------------------------------------------------------------------------------------
  // Waiters and their call
  // ---------------------------------------------------------------------------------------------

  ghost predicate HasOneBound(s: State, call: nat) {
    && (exists t :: 0 <= t < |s.threads| && BoundTo(s.threads[t], call))
    && (forall t, u | 0 <= t < |s.threads| && 0 <= u < |s.threads| && BoundTo(s.threads[t], call)
                   && BoundTo(s.threads[u], call) :: t == u)
  }

  lemma OpenCallHasOneBound(s: State, call: nat)
    requires Inv(s) && call < |s.shared.core.calls|
    ensures if s.shared.core.calls[call].done then forall t | 0 <= t < |s.threads| :: !BoundTo(s.threads[t], call)
            else HasOneBound(s, call)
  {
    assert CallRecordOk(s, call);
    forall t | 0 <= t < |s.threads| && BoundTo(s.threads[t], call)
      ensures t == s.shared.origins[call].owner && !s.shared.core.calls[call].done
    {
      assert PhaseOk(s.shared, t, s.threads[t]);
    }
  }

  /** A waiter's channel is closed already, or exactly one goroutine is still bound to close it. */
  lemma NoWaiterIsLost(cookie: Cookie, goroutines: nat, trace: seq<Action>, t: nat)
    requires Admissible(Initial(cookie, goroutines), trace)
    requires var s := Execute(Initial(cookie, goroutines), trace); t < |s.threads| && s.threads[t].Waiting?
    ensures var s := Execute(Initial(cookie, goroutines), trace);
            var call := s.threads[t].call;
            && call < |s.shared.core.calls|
            && (s.shared.core.calls[call].done || HasOneBound(s, call))
            && (s.shared.core.calls[call].done ==> Enabled(s, Wake(t)))
  {
    var init := Initial(cookie, goroutines);
    InitialHolds(cookie, goroutines);
    RunKeepsInv(init, trace);
    var s := Execute(init, trace);
    assert PhaseOk(s.shared, t, s.threads[t]);
    OpenCallHasOneBound(s, s.threads[t].call);
  }

  /**
   A goroutine about to close a channel finds it open, with cookie and err already holding the
   outcome it publishes (Ok, Err and Panic alike): the close changes nothing but `done`.
   */
  lemma CloseIsFirstAndFinal(cookie: Cookie, goroutines: nat, trace: seq<Action>, t: nat)
    requires Admissible(Initial(cookie, goroutines), trace)
    requires Enabled(Execute(Initial(cookie, goroutines), trace), Close(t))
    ensures var s := Execute(Initial(cookie, goroutines), trace);
            var p := s.threads[t];
            && !s.shared.core.calls[p.call].done
            && ResultOf(s.shared.core.calls[p.call]) == p.result
            && Step(s, Close(t)).shared.core == s.shared.core.(calls :=
               s.shared.core.calls[p.call := s.shared.core.calls[p.call].(done := true)])
  {
    var init := Initial(cookie, goroutines);
    InitialHolds(cookie, goroutines);
    RunKeepsInv(init, trace);
    var s := Execute(init, trace);
    assert PhaseOk(s.shared, t, s.threads[t]);
  }

  lemma ClosedCallSurvivesStep(s: State, a: Action, call: nat)
    requires Inv(s) && Enabled(s, a) && call < |s.shared.core.calls| && s.shared.core.calls[call].done
    ensures call < |Step(s, a).shared.core.calls| && Step(s, a).shared.core.calls[call] == s.shared.core.calls[call]
  {
    assert PhaseOk(s.shared, a.t, s.threads[a.t]);
  }

  /** Once its channel is closed, a call's cookie and err never change: every waiter reads the same. */
  lemma {:induction false} ClosedCallIsImmutable(s: State, trace: seq<Action>, call: nat)
    requires Inv(s) && Admissible(s, trace) && call < |s.shared.core.calls| && s.shared.core.calls[call].done
    ensures call < |Execute(s, trace).shared.core.calls|
    ensures Execute(s, trace).shared.core.calls[call] == s.shared.core.calls[call]
    decreases |trace|
  {
    if trace != [] {
      StepKeepsInv(s, trace[0]);
      ClosedCallSurvivesStep(s, trace[0], call);
      ClosedCallIsImmutable(Step(s, trace[0]), trace[1..], call);
    }
  }

  // ---------------------------------------------------------------------------------------------
  // Progress
  // ---------------------------------------------------------------------------------------------

  predicate NewWork(a: Action) {
    a.BeginRequest? || a.BeginRefresh?
  }

  function Distance(p: Phase): nat {
    match p
    case Idle => 0
    case Retried(_) => 1
    case Returned(_, _, _, _) => 2
    case Persisting(_, _, _, _) => 3
    case Closing(_, _, _, _) => 4
    case Finishing(_, _, _, _) => 5
    case Leading(_, _, _, _) => 6
    case Waiting(_, _, _) => 6
    case Stale(_, _) => 7
    case Sent(_) => 8
  }

  predicate AllIdle(threads: seq<Phase>) {
    forall t | 0 <= t < |threads| :: threads[t].Idle?
  }

  function Remaining(threads: seq<Phase>): nat {
    if threads == [] then 0 else Distance(threads[0]) + Remaining(threads[1..])
  }

  lemma {:induction false} RemainingAfterUpdate(threads: seq<Phase>, t: nat, p: Phase)
    requires t < |threads|
    ensures Remaining(threads[t := p]) == Remaining(threads) - Distance(threads[t]) + Distance(p)
    decreases |threads|
  {
    if t == 0 {
      assert threads[0 := p] == [p] + threads[1..];
    } else {
      assert threads[t := p][1..] == threads[1..][t - 1 := p];
      RemainingAfterUpdate(threads[1..], t - 1, p);
    }
  }

  lemma {:induction false} RemainingIsBounded(threads: seq<Phase>)
    ensures Remaining(threads) <= 8 * |threads|
    decreases |threads|
  {
    if threads != [] {
      RemainingIsBounded(threads[1..]);
    }
  }

  lemma StepApproaches(s: State, a: Action)
    requires Enabled(s, a) && !NewWork(a)
    ensures Remaining(Step(s, a).threads) < Remaining(s.threads)
  {
    RemainingAfterUpdate(s.threads, a.t, Step(s, a).threads[a.t]);
  }

  /** The action that moves a goroutine which is neither idle nor waiting. */
  function OwnMove(t: nat, p: Phase): Action
    requires !p.Idle? && !p.Waiting?
  {
    match p
    case Sent(_) => FirstAnswered(t, false)
    case Stale(_, _) => Enter(t)
    case Leading(_, _, _, _) => NetworkReturned(t, Panicked)
    case Finishing(_, _, _, _) => Publish(t)
    case Closing(_, _, _, _) => Close(t)
    case Persisting(_, _, _, _) => Persist(t, false)
    case Returned(_, _, _, _) => Resume(t, false)
    case Retried(_) => RetryAnswered(t)
  }

  /** The protocol cannot deadlock: a busy goroutine can move, or the one it waits for can. */
  lemma SomeoneCanMove(s: State, t: nat) returns (a: Action)
    requires Inv(s) && t < |s.threads| && !s.threads[t].Idle?
    ensures Enabled(s, a) && !NewWork(a)
  {
    assert PhaseOk(s.shared, t, s.threads[t]);
    if s.threads[t].Waiting? {
      var call := s.threads[t].call;
      assert CallRecordOk(s, call);
      if s.shared.core.calls[call].done {
        a := Wake(t);
      } else {
        var owner := s.shared.origins[call].owner;
        assert PhaseOk(s.shared, owner, s.threads[owner]);
        a := OwnMove(owner, s.threads[owner]);
      }
    } else {
      a := OwnMove(t, s.threads[t]);
    }
  }

  lemma {:induction false} RunConsumesDistance(s: State, trace: seq<Action>)
    requires Admissible(s, trace) && forall i | 0 <= i < |trace| :: !NewWork(trace[i])
    ensures |trace| + Remaining(Execute(s, trace).threads) <= Remaining(s.threads)
    decreases |trace|
  {
    if trace != [] {
      StepApproaches(s, trace[0]);
      RunConsumesDistance(Step(s, trace[0]), trace[1..]);
    }
  }

  /** Without new requests every run is short: no goroutine can spin or be made to wait forever. */
  lemma RunWithoutNewWorkIsBounded(s: State, trace: seq<Action>)
    requires Admissible(s, trace) && forall i | 0 <= i < |trace| :: !NewWork(trace[i])
    ensures |trace| <= 8 * |s.threads|
  {
    RunConsumesDistance(s, trace);
    RemainingIsBounded(s.threads);
  }

  /**
   From every reachable situation the goroutines already running can all finish, so neither a
   failing nor a panicking rotation blocks anyone for good.
   */
  lemma {:induction false} EveryoneFinishes(s: State) returns (trace: seq<Action>)
    requires Inv(s)
    ensures Admissible(s, trace) && forall i | 0 <= i < |trace| :: !NewWork(trace[i])
    ensures |Execute(s, trace).threads| == |s.threads| && AllIdle(Execute(s, trace).threads)
    decreases Remaining(s.threads)
  {
    trace := [];
    if t: nat :| t < |s.threads| && !s.threads[t].Idle? {
      var a := SomeoneCanMove(s, t);
      StepApproaches(s, a);
      StepKeepsInv(s, a);
      var rest := EveryoneFinishes(Step(s, a));
      trace := [a] + rest;
      assert trace[1..] == rest;
    }
  }
}
