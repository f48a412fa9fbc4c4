/**
 What one RoundTrip, one Rotate and one Refresh come to, from their first step to their last, whatever the other
 goroutines do in between. The requests sent and the outcomes obtained are read off the run.
 */
module SessionRuns {
  import opened SessionProtocol
  import opened SessionTheorems

  /** Goroutine t is at work in every state from s on until the last one, in which it is idle. */
  predicate UntilIdle(s: State, run: seq<Action>, t: nat)
    requires Admissible(s, run)
    decreases |run|
  {
    && t < |s.threads|
    && if run == [] then s.threads[t].Idle? else !s.threads[t].Idle? && UntilIdle(Step(s, run[0]), run[1..], t)
  }

  /** Nobody but t moves t. */
  lemma OthersLeaveAlone(s: State, a: Action, t: nat)
    requires Enabled(s, a) && t < |s.threads| && a.t != t
    ensures |Step(s, a).threads| == |s.threads| && Step(s, a).threads[t] == s.threads[t]
  {
  }

  // ---------------------------------------------------------------------------------------------
  // One RoundTrip
  // ---------------------------------------------------------------------------------------------

  /** The requests t sends in the course of a run: those its steps add to the ones it has sent. */
  function Sends(s: State, run: seq<Action>, t: nat): seq<Attempt>
    requires Admissible(s, run)
    decreases |run|
  {
    if run == [] then []
    else
      var next := Step(s, run[0]);
      (if run[0].t == t then Added(AttemptsOf(s.threads[t]), AttemptsOf(next.threads[t])) else [])
      + Sends(next, run[1..], t)
  }

  function Added(before: seq<Attempt>, after: seq<Attempt>): seq<Attempt> {
    if |after| > |before| then after[|before|..] else []
  }

  /**
   The retries due to t in the course of a run: one, with the cookie and generation Rotate returned,
   wherever Rotate has returned a cookie and the body of the request can be replayed.
   */
  function Due(s: State, run: seq<Action>, t: nat): seq<Attempt>
    requires Admissible(s, run)
    decreases |run|
  {
    if run == [] then []
    else
      var p := s.threads[run[0].t];
      (if run[0] == Resume(t, true) && p.Returned? && p.result.Rotated? then [Attempt(p.gen, p.result.cookie)] else [])
      + Due(Step(s, run[0]), run[1..], t)
  }

  /** Between the first answer and the end, with one request sent. */
  predicate AfterAnswer(p: Phase) {
    !p.Idle? && !p.Sent? && !p.Retried? && |p.attempts| == 1
  }

  /** The steps of t after its first answer, as far as they send something. */
  lemma OwnStep(s: State, a: Action)
    requires Enabled(s, a) && AfterAnswer(s.threads[a.t])
    ensures var p, q := s.threads[a.t], Step(s, a).threads[a.t];
            && |Step(s, a).threads| == |s.threads| && !a.FirstAnswered? && (a.Enter? <==> p.Stale?)
            && (a.Resume? <==> p.Returned?)
            && if !a.Resume? then AfterAnswer(q) && !q.Stale? && q.attempts == p.attempts
               else if a.replayable && p.result.Rotated?
                 then q == Retried(p.attempts + [Attempt(p.gen, p.result.cookie)])
                 else q.Idle?
  {
  }

  lemma {:induction false} RetryIsLast(s: State, run: seq<Action>, t: nat)
    requires Admissible(s, run) && UntilIdle(s, run, t) && s.threads[t].Retried?
    ensures Sends(s, run, t) == [] == Due(s, run, t) && Enter(t) !in run
    decreases |run|
  {
    var next := Step(s, run[0]);
    assert run == [run[0]] + run[1..];
    if run[0].t == t {
      assert next.threads[t].Idle? && run[1..] == [];
    } else {
      OthersLeaveAlone(s, run[0], t);
      RetryIsLast(next, run[1..], t);
    }
  }

  lemma {:induction false} AnsweredSendsWhatIsDue(s: State, run: seq<Action>, t: nat)
    requires Admissible(s, run) && UntilIdle(s, run, t) && AfterAnswer(s.threads[t])
    ensures Sends(s, run, t) == Due(s, run, t) && |Due(s, run, t)| <= 1
    ensures Enter(t) in run <==> s.threads[t].Stale?
    ensures forall b :: FirstAnswered(t, b) !in run
    decreases |run|
  {
    var next := Step(s, run[0]);
    assert run == [run[0]] + run[1..];
    if run[0].t != t {
      OthersLeaveAlone(s, run[0], t);
      AnsweredSendsWhatIsDue(next, run[1..], t);
    } else {
      OwnStep(s, run[0]);
      if !run[0].Resume? {
        AnsweredSendsWhatIsDue(next, run[1..], t);
      } else if next.threads[t].Retried? {
        RetryIsLast(next, run[1..], t);
        NoAnswerAfterRetry(next, run[1..], t);
      }
    }
  }

  lemma {:induction false} NoAnswerAfterRetry(s: State, run: seq<Action>, t: nat)
    requires Admissible(s, run) && UntilIdle(s, run, t) && s.threads[t].Retried?
    ensures forall b :: FirstAnswered(t, b) !in run
    decreases |run|
  {
    assert run == [run[0]] + run[1..];
    if run[0].t != t {
      OthersLeaveAlone(s, run[0], t);
      NoAnswerAfterRetry(Step(s, run[0]), run[1..], t);
    }
  }

  lemma {:induction false} SentSendsWhatIsDue(s: State, run: seq<Action>, t: nat)
    requires Admissible(s, run) && UntilIdle(s, run, t) && s.threads[t].Sent? && |s.threads[t].attempts| == 1
    ensures Sends(s, run, t) == Due(s, run, t) && |Due(s, run, t)| <= 1
    ensures Enter(t) in run <==> FirstAnswered(t, true) in run
    ensures FirstAnswered(t, true) in run <==> FirstAnswered(t, false) !in run
    ensures Due(s, run, t) != [] ==> FirstAnswered(t, true) in run
    decreases |run|
  {
    var next := Step(s, run[0]);
    assert run == [run[0]] + run[1..];
    if run[0].t != t {
      OthersLeaveAlone(s, run[0], t);
      SentSendsWhatIsDue(next, run[1..], t);
    } else if run[0].unauthorized {
      AnsweredSendsWhatIsDue(next, run[1..], t);
    } else {
      assert run[1..] == [];
    }
  }

  /** The retries due carry a cookie of a generation newer than the first request's. */
  lemma {:induction false} DueIsNewer(s: State, run: seq<Action>, t: nat)
    requires Inv(s) && Admissible(s, run) && UntilIdle(s, run, t) && |AttemptsOf(s.threads[t])| == 1
    ensures var history := Execute(s, run).shared.history;
            forall d <- Due(s, run, t) ::
              s.threads[t].attempts[0].gen < d.gen < |history| && d.cookie == history[d.gen]
    decreases |run|
  {
    if run != [] {
      var p, next := s.threads[t], Step(s, run[0]);
      StepKeepsInv(s, run[0]);
      RunAppendsRotations(s, run);
      assert PhaseOk(s.shared, t, p);
      if run[0].t != t {
        OthersLeaveAlone(s, run[0], t);
        DueIsNewer(next, run[1..], t);
      } else if next.threads[t].Retried? {
        RetryIsLast(next, run[1..], t);
      } else if next.threads[t].Idle? {
        assert run[1..] == [];
      } else {
        OwnStepKeepsAttempts(s, run[0]);
        DueIsNewer(next, run[1..], t);
      }
    }
  }

  lemma OwnStepKeepsAttempts(s: State, a: Action)
    requires Enabled(s, a) && !s.threads[a.t].Idle?
    requires !Step(s, a).threads[a.t].Retried? && !Step(s, a).threads[a.t].Idle?
    ensures !a.Resume? && Step(s, a).threads[a.t].attempts == s.threads[a.t].attempts
  {
  }

  lemma RoundTripFrom(s: State, t: nat, run: seq<Action>)
    requires Inv(s) && Enabled(s, BeginRequest(t)) && Admissible(Step(s, BeginRequest(t)), run)
    requires UntilIdle(Step(s, BeginRequest(t)), run, t)
    ensures var next := Step(s, BeginRequest(t));
            var due, later := Due(next, run, t), s.shared.history + Rotations(next, run);
            && Sends(next, run, t) == due && |due| <= 1
            && (forall d <- due :: |s.shared.history| <= d.gen < |later| && d.cookie == later[d.gen])
            && (due != [] ==> FirstAnswered(t, true) in run)
            && (Enter(t) in run <==> FirstAnswered(t, true) in run)
            && (FirstAnswered(t, true) in run <==> FirstAnswered(t, false) !in run)
  {
    var next := Step(s, BeginRequest(t));
    StepKeepsInv(s, BeginRequest(t));
    SentSendsWhatIsDue(next, run, t);
    DueIsNewer(next, run, t);
    RunAppendsRotations(next, run);
  }

  /**
   A RoundTrip, from its start in whatever state a run has led to until its goroutine is idle again,
   sends the current cookie first and then exactly the retries that are due, of which there is at
   most one, only after a 401, with a newer cookie; it reaches Rotate exactly when its first answer
   is a 401.
   */
  lemma RoundTripIsExact(cookie: Cookie, goroutines: nat, before: seq<Action>, t: nat, run: seq<Action>)
    requires Admissible(Initial(cookie, goroutines), before)
    requires var s := Execute(Initial(cookie, goroutines), before);
             && Enabled(s, BeginRequest(t)) && Admissible(Step(s, BeginRequest(t)), run)
             && UntilIdle(Step(s, BeginRequest(t)), run, t)
    ensures var init := Initial(cookie, goroutines);
            var s := Execute(init, before);
            var next, begun := Step(s, BeginRequest(t)), [BeginRequest(t)];
            var cookies := [cookie] + Rotations(init, before);
            var later, due := cookies + Rotations(next, run), Due(next, run, t);
            && Sends(s, begun, t) + Sends(next, run, t) == [Attempt(|cookies| - 1, cookies[|cookies| - 1])] + due
            && |due| <= 1
            && (forall d <- due :: |cookies| <= d.gen < |later| && d.cookie == later[d.gen])
            && (due != [] ==> FirstAnswered(t, true) in run)
            && (Enter(t) in run <==> FirstAnswered(t, true) in run)
            && (FirstAnswered(t, true) in run <==> FirstAnswered(t, false) !in run)
  {
    var init := Initial(cookie, goroutines);
    var s := Execute(init, before);
    RunAppendsRotations(init, before);
    InitialHolds(cookie, goroutines);
    RunKeepsInv(init, before);
    FirstSend(s, t);
    assert s.shared.history == [cookie] + Rotations(init, before);
    hide Inv, Step, Enabled, Admissible, Execute, Rotations, UntilIdle, Due, Sends;
    RoundTripFrom(s, t, run);
  }

  lemma FirstSend(s: State, t: nat)
    requires Inv(s) && Enabled(s, BeginRequest(t))
    ensures var history := s.shared.history;
            && |history| > 0 && Admissible(s, [BeginRequest(t)])
            && Sends(s, [BeginRequest(t)], t) == [Attempt(|history| - 1, history[|history| - 1])]
  {
    var next := Step(s, BeginRequest(t));
    assert Sends(next, [BeginRequest(t)][1..], t) == [];
  }

  // ---------------------------------------------------------------------------------------------
  // One network call for each rotation
  // ---------------------------------------------------------------------------------------------

  /** What the network calls made for one rotation came to, in the course of a run. */
  function Outcomes(s: State, run: seq<Action>, call: nat): seq<Outcome>
    requires Admissible(s, run)
    decreases |run|
  {
    if run == [] then []
    else
      var a := run[0];
      (if a.NetworkReturned? && s.threads[a.t].call == call then [a.outcome] else [])
      + Outcomes(Step(s, a), run[1..], call)
  }

  /** An answered cookie is a success; a refusal and a panic are both errors. */
  predicate Settles(result: RotateResult, outcomes: seq<Outcome>) {
    && |outcomes| == 1
    && (outcomes[0].Answered? ==> result == Rotated(outcomes[0].cookie))
    && (!outcomes[0].Answered? ==> result == RotateError)
  }

  /** A rotation's network call is made once, before its outcome is anywhere; no call, no outcomes. */
  predicate Accounted(s: State, call: nat, outcomes: seq<Outcome>) {
    if call >= |s.shared.core.calls| then outcomes == []
    else if s.shared.core.calls[call].done then Settles(ResultOf(s.shared.core.calls[call]), outcomes)
    else
      && call < |s.shared.origins| && s.shared.origins[call].owner < |s.threads|
      && var p := s.threads[s.shared.origins[call].owner];
         && BoundTo(p, call)
         && if p.Leading? then outcomes == [] else Settles(p.result, outcomes)
  }

  function OutcomeOf(s: State, a: Action, call: nat): seq<Outcome>
    requires Enabled(s, a)
  {
    if a.NetworkReturned? && s.threads[a.t].call == call then [a.outcome] else []
  }

  lemma EnterAccounts(s: State, a: Action, call: nat, outcomes: seq<Outcome>)
    requires Inv(s) && Enabled(s, a) && a.Enter? && Accounted(s, call, outcomes)
    ensures Accounted(Step(s, a), call, outcomes)
  {
    InvPhase(s, a.t);
  }

  lemma PublishAccounts(s: State, a: Action, call: nat, outcomes: seq<Outcome>)
    requires Inv(s) && Enabled(s, a) && a.Publish? && Accounted(s, call, outcomes)
    ensures Accounted(Step(s, a), call, outcomes)
  {
    InvPhase(s, a.t);
  }

  lemma CloseAccounts(s: State, a: Action, call: nat, outcomes: seq<Outcome>)
    requires Inv(s) && Enabled(s, a) && a.Close? && Accounted(s, call, outcomes)
    ensures Accounted(Step(s, a), call, outcomes)
  {
    InvPhase(s, a.t);
  }

  lemma OtherStepAccounts(s: State, a: Action, call: nat, outcomes: seq<Outcome>)
    requires Inv(s) && Enabled(s, a) && !a.Enter? && !a.Publish? && !a.Close? && Accounted(s, call, outcomes)
    ensures Accounted(Step(s, a), call, outcomes + OutcomeOf(s, a, call))
  {
    InvPhase(s, a.t);
    assert Step(s, a).shared == s.shared;
    assert OutcomeOf(s, a, call) == [] ==> outcomes + OutcomeOf(s, a, call) == outcomes;
  }

  lemma StepAccounts(s: State, a: Action, call: nat, outcomes: seq<Outcome>)
    requires Inv(s) && Enabled(s, a) && Accounted(s, call, outcomes)
    ensures Accounted(Step(s, a), call, outcomes + OutcomeOf(s, a, call))
  {
    hide Inv, Accounted, Step, Enabled;
    assert !a.NetworkReturned? ==> outcomes + OutcomeOf(s, a, call) == outcomes;
    match a {
      case Enter(_) => EnterAccounts(s, a, call, outcomes);
      case Publish(_) => PublishAccounts(s, a, call, outcomes);
      case Close(_) => CloseAccounts(s, a, call, outcomes);
      case _ => OtherStepAccounts(s, a, call, outcomes);
    }
  }

  lemma {:induction false} RunAccounts(s: State, run: seq<Action>, call: nat, outcomes: seq<Outcome>)
    requires Inv(s) && Admissible(s, run) && Accounted(s, call, outcomes)
    ensures Accounted(Execute(s, run), call, outcomes + Outcomes(s, run, call))
    decreases |run|
  {
    if run == [] {
      assert outcomes + Outcomes(s, run, call) == outcomes;
    } else {
      var a := run[0];
      StepKeepsInv(s, a);
      StepAccounts(s, a, call, outcomes);
      RunAccounts(Step(s, a), run[1..], call, outcomes + OutcomeOf(s, a, call));
      assert outcomes + Outcomes(s, run, call)
          == outcomes + OutcomeOf(s, a, call) + Outcomes(Step(s, a), run[1..], call);
    }
  }

  /** After any run, a closed rotation has made one network call and its record is what that came to. */
  lemma ClosedCallIsItsOutcome(cookie: Cookie, goroutines: nat, trace: seq<Action>, call: nat)
    requires Admissible(Initial(cookie, goroutines), trace)
    requires var calls := Execute(Initial(cookie, goroutines), trace).shared.core.calls;
             call < |calls| && calls[call].done
    ensures var init := Initial(cookie, goroutines);
            Settles(ResultOf(Execute(init, trace).shared.core.calls[call]), Outcomes(init, trace, call))
  {
    var init := Initial(cookie, goroutines);
    InitialHolds(cookie, goroutines);
    RunAccounts(init, trace, call, []);
    assert [] + Outcomes(init, trace, call) == Outcomes(init, trace, call);
  }

  // ---------------------------------------------------------------------------------------------
  // One Rotate
  // ---------------------------------------------------------------------------------------------

  /** Goroutine t is inside Rotate in every state from s on until the last one, in which it has returned. */
  predicate UntilReturned(s: State, run: seq<Action>, t: nat)
    requires Admissible(s, run)
    decreases |run|
  {
    && t < |s.threads|
    && if run == [] then s.threads[t].Returned?
       else !s.threads[t].Returned? && UntilReturned(Step(s, run[0]), run[1..], t)
  }

  /** The network calls t makes in the course of a run. */
  function NetworkCalls(run: seq<Action>, t: nat): nat {
    if run == [] then 0 else (if run[0].NetworkReturned? && run[0].t == t then 1 else 0) + NetworkCalls(run[1..], t)
  }

  /** The times t hands a cookie to the Keychain in the course of a run. */
  function Persists(run: seq<Action>, t: nat): nat {
    if run == [] then 0 else (if run[0].Persist? && run[0].t == t then 1 else 0) + Persists(run[1..], t)
  }

  /** Inside Rotate on account of one call, past whose publication its leader only persists the cookie. */
  predicate On(s: State, p: Phase, call: nat) {
    && call < |s.shared.core.calls| && call < |s.shared.origins|
    && match p
       case Waiting(_, _, c) => c == call
       case Leading(_, _, c, _) => c == call
       case Finishing(_, _, c, _) => c == call
       case Closing(_, _, c, _) => c == call
       case Persisting(_, _, cookie, gen) =>
         && s.shared.core.calls[call].done && ResultOf(s.shared.core.calls[call]) == Rotated(cookie)
         && gen == s.shared.origins[call].base + 1
       case _ => false
  }

  /** What Rotate has returned on account of one call. */
  predicate ReturnedBy(s: State, p: Phase, call: nat) {
    && call < |s.shared.core.calls| && call < |s.shared.origins| && p.Returned?
    && s.shared.core.calls[call].done && p.result == ResultOf(s.shared.core.calls[call])
    && (p.result.Rotated? ==> p.gen == s.shared.origins[call].base + 1)
  }

  /** A step of anyone keeps t on its call, or ends with what the call came to. */
  lemma StepStaysOn(s: State, a: Action, t: nat, call: nat)
    requires Inv(s) && Enabled(s, a) && t < |s.threads| && On(s, s.threads[t], call)
    ensures var q := Step(s, a).threads[t];
            && |Step(s, a).threads| == |s.threads|
            && (On(Step(s, a), q, call) || ReturnedBy(Step(s, a), q, call))
            && call < |Step(s, a).shared.origins| && Step(s, a).shared.origins[call] == s.shared.origins[call]
            && (a.t != t ==> q == s.threads[t])
            && q.used == s.threads[t].used && q.attempts == s.threads[t].attempts
  {
    assert PhaseOk(s.shared, a.t, s.threads[a.t]) && PhaseOk(s.shared, t, s.threads[t]);
    if s.shared.core.calls[call].done {
      ClosedCallSurvivesStep(s, a, call);
    }
    if a.t != t {
      OthersLeaveAlone(s, a, t);
    }
  }

  lemma {:induction false} ReturnsItsCall(s: State, run: seq<Action>, t: nat, call: nat)
    requires Inv(s) && Admissible(s, run) && UntilReturned(s, run, t)
    requires On(s, s.threads[t], call) || ReturnedBy(s, s.threads[t], call)
    ensures var end := Execute(s, run);
            && t < |end.threads| && ReturnedBy(end, end.threads[t], call)
            && end.threads[t].used == s.threads[t].used && end.threads[t].attempts == s.threads[t].attempts
            && end.shared.origins[call] == s.shared.origins[call]
            && NetworkCalls(run, t) == (if s.threads[t].Leading? then 1 else 0)
            && Persists(run, t) ==
               if s.threads[t].Waiting? || end.threads[t].result.RotateError? || s.threads[t].Returned? then 0 else 1
    decreases |run|
  {
    if run != [] {
      StepKeepsInv(s, run[0]);
      StepStaysOn(s, run[0], t, call);
      ReturnsItsCall(Step(s, run[0]), run[1..], t, call);
    }
  }

  /** What Rotate returned to t, which read generation `used`: the outcome of the one call it was on. */
  predicate ReturnedOutcome(p: Phase, used: nat, outcomes: seq<Outcome>) {
    p.Returned? && Settles(p.result, outcomes) && (p.result.Rotated? ==> p.gen == used + 1)
  }

  /** What entering Rotate on account of a call comes to: one network call, made by its leader. */
  lemma RotateFrom(s: State, t: nat, run: seq<Action>, call: nat, outcomes: seq<Outcome>)
    requires Inv(s) && Enabled(s, Enter(t)) && s.shared.core.gen <= s.threads[t].used
    requires Admissible(Step(s, Enter(t)), run) && UntilReturned(Step(s, Enter(t)), run, t)
    requires call == if s.shared.core.inflight.None? then |s.shared.core.calls| else s.shared.core.inflight.value
    requires Accounted(s, call, outcomes)
    ensures var next := Step(s, Enter(t));
            var lead, end := s.shared.core.inflight.None?, Execute(next, run);
            && t < |end.threads|
            && ReturnedOutcome(end.threads[t], s.threads[t].used, outcomes + Outcomes(next, run, call))
            && NetworkCalls(run, t) == (if lead then 1 else 0)
            && Persists(run, t) == (if lead && end.threads[t].result.Rotated? then 1 else 0)
  {
    var next := Step(s, Enter(t));
    StepKeepsInv(s, Enter(t));
    InvPhase(s, t);
    InvPhase(next, t);
    assert On(next, next.threads[t], call);
    EnterAccounts(s, Enter(t), call, outcomes);
    hide Inv, Step, Enabled;
    ReturnsItsCall(next, run, t, call);
    RunAccounts(next, run, call, outcomes);
  }

  /**
   A Rotate, from entering in whatever state a run has led to until it returns. When a newer
   generation exists it returns the current cookie at once and changes nothing. Otherwise it is on one
   call, the one in flight if there is one and else its own; it makes the network call exactly when
   the call is its own, persists exactly when that also succeeded, and returns what the only network
   call ever made for it, by whichever goroutine, came to.
   */
  lemma RotateIsExact(cookie: Cookie, goroutines: nat, before: seq<Action>, t: nat, run: seq<Action>)
    requires Admissible(Initial(cookie, goroutines), before)
    requires var s := Execute(Initial(cookie, goroutines), before);
             && Enabled(s, Enter(t)) && Admissible(Step(s, Enter(t)), run)
             && UntilReturned(Step(s, Enter(t)), run, t)
    ensures var init := Initial(cookie, goroutines);
            var s := Execute(init, before);
            var next, core := Step(s, Enter(t)), s.shared.core;
            var end, used, attempts := Execute(next, run), s.threads[t].used, s.threads[t].attempts;
            && t < |end.threads|
            && if core.gen > used then
                 run == [] && end.shared == s.shared
                 && end.threads[t] == Returned(used, attempts, Rotated(core.cookie), core.gen)
               else
                 var lead := core.inflight.None?;
                 var call := if lead then |core.calls| else core.inflight.value;
                 && ReturnedOutcome(end.threads[t], used, Outcomes(init, before, call) + Outcomes(next, run, call))
                 && NetworkCalls(run, t) == (if lead then 1 else 0)
                 && Persists(run, t) == (if lead && end.threads[t].result.Rotated? then 1 else 0)
  {
    hide *;
    var init := Initial(cookie, goroutines);
    var s := Execute(init, before);
    EntersStale(s, t);
    InitialHolds(cookie, goroutines);
    RunKeepsInv(init, before);
    if s.shared.core.gen > s.threads[t].used {
      ShortCircuitReturns(s, t, run);
    } else {
      var call := if s.shared.core.inflight.None? then |s.shared.core.calls| else s.shared.core.inflight.value;
      NoCallYet(cookie, goroutines, call);
      RunAccounts(init, before, call, []);
      assert [] + Outcomes(init, before, call) == Outcomes(init, before, call);
      RotateFrom(s, t, run, call, Outcomes(init, before, call));
    }
  }

  lemma EntersStale(s: State, t: nat)
    requires Enabled(s, Enter(t))
    ensures t < |s.threads| && s.threads[t].Stale?
  {
  }

  lemma NoCallYet(cookie: Cookie, goroutines: nat, call: nat)
    ensures Accounted(Initial(cookie, goroutines), call, [])
  {
  }

  lemma ShortCircuitReturns(s: State, t: nat, run: seq<Action>)
    requires Enabled(s, Enter(t)) && s.shared.core.gen > s.threads[t].used
    requires Admissible(Step(s, Enter(t)), run) && UntilReturned(Step(s, Enter(t)), run, t)
    ensures run == [] && Execute(Step(s, Enter(t)), run).shared == s.shared
    ensures var p, core := s.threads[t], s.shared.core;
            var end := Execute(Step(s, Enter(t)), run);
            && t < |end.threads|
            && end.threads[t] == Returned(p.used, p.attempts, Rotated(core.cookie), core.gen)
  {
  }

  // ---------------------------------------------------------------------------------------------
  // One Refresh
  // ---------------------------------------------------------------------------------------------

  lemma {:induction false} WaitingStale(s: State, wait: seq<Action>, t: nat)
    requires Admissible(s, wait) && t < |s.threads| && forall a | a in wait :: a.t != t
    ensures |Execute(s, wait).threads| == |s.threads| && Execute(s, wait).threads[t] == s.threads[t]
    decreases |wait|
  {
    if wait != [] {
      assert wait[0] in wait && forall a | a in wait[1..] :: a in wait;
      OthersLeaveAlone(s, wait[0], t);
      WaitingStale(Step(s, wait[0]), wait[1..], t);
    }
  }

  lemma {:induction false} RefreshSendsNothing(s: State, run: seq<Action>, t: nat)
    requires Admissible(s, run) && UntilIdle(s, run, t)
    requires s.threads[t].Idle? || (!s.threads[t].Sent? && !s.threads[t].Retried? && s.threads[t].attempts == [])
    ensures Sends(s, run, t) == []
    decreases |run|
  {
    if run != [] {
      if run[0].t != t {
        OthersLeaveAlone(s, run[0], t);
      }
      RefreshSendsNothing(Step(s, run[0]), run[1..], t);
    }
  }

  /**
   A Refresh is never skipped: when it enters Rotate it is answered without a rotation exactly when one was
   published since it began. It sends no request, whatever Rotate returns.
   */
  lemma RefreshIsNeverMissed(cookie: Cookie, goroutines: nat, before: seq<Action>, t: nat, wait: seq<Action>)
    requires Admissible(Initial(cookie, goroutines), before)
    requires var s := Execute(Initial(cookie, goroutines), before);
             && Enabled(s, BeginRefresh(t)) && Admissible(Step(s, BeginRefresh(t)), wait)
    requires forall a | a in wait :: a.t != t
    ensures var next := Step(Execute(Initial(cookie, goroutines), before), BeginRefresh(t));
            var s := Execute(next, wait);
            && Enabled(s, Enter(t))
            && (s.shared.core.gen > s.threads[t].used <==> Rotations(next, wait) != [])
            && forall run | Admissible(s, run) && UntilIdle(s, run, t) :: Sends(s, run, t) == []
  {
    var init := Initial(cookie, goroutines);
    var start := Execute(init, before);
    var next := Step(start, BeginRefresh(t));
    InitialHolds(cookie, goroutines);
    RunKeepsInv(init, before);
    StepKeepsInv(start, BeginRefresh(t));
    RunKeepsInv(next, wait);
    RunAppendsRotations(next, wait);
    WaitingStale(next, wait, t);
    var s := Execute(next, wait);
    assert |s.shared.history| == s.shared.core.gen + 1 && |next.shared.history| == next.shared.core.gen + 1;
    forall run | Admissible(s, run) && UntilIdle(s, run, t) ensures Sends(s, run, t) == [] {
      RefreshSendsNothing(s, run, t);
    }
  }

  // ---------------------------------------------------------------------------------------------
  // The Keychain
  // ---------------------------------------------------------------------------------------------

  /** The cookie the Keychain takes in one step, which the Rotate of its goroutine returns. */
  function StoredBy(s: State, a: Action): seq<Cookie>
    requires Enabled(s, a)
  {
    var p := Step(s, a).threads[a.t];
    if a.Persist? && a.stored && p.Returned? && p.result.Rotated? then [p.result.cookie] else []
  }

  /** The cookies the Keychain took in the course of a run. */
  function Stored(s: State, run: seq<Action>): seq<Cookie>
    requires Admissible(s, run)
    decreases |run|
  {
    if run == [] then [] else StoredBy(s, run[0]) + Stored(Step(s, run[0]), run[1..])
  }

  lemma StepStores(s: State, a: Action)
    requires Enabled(s, a)
    ensures Step(s, a).persisted == s.persisted + StoredBy(s, a)
  {
  }

  lemma {:induction false} PersistedIsStored(s: State, run: seq<Action>)
    requires Admissible(s, run)
    ensures Execute(s, run).persisted == s.persisted + Stored(s, run)
    decreases |run|
  {
    hide Step, StoredBy, Enabled;
    if run != [] {
      StepStores(s, run[0]);
      PersistedIsStored(Step(s, run[0]), run[1..]);
    }
  }
}
