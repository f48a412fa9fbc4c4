/**
 The session source itself: the mutex-guarded fields and the shared rotateCall, updated in place.
 Each method up to `Close` is one critical section, proved to be the protocol's section on the
 fields' abstract value, so the theorems about runs speak of this code.
 */
module SessionSources {
  import opened Options
  import opened SessionProtocol

  /** One rotation in flight or finished, shared by every caller that joined it. */
  class RotateCall {
    var cookie: Cookie
    var err: bool
    var done: bool

    constructor ()
      ensures cookie == "" && !err && !done
    {
      cookie, err, done := "", false, false;
    }

    ghost function Record(): CallRecord
      reads this
    {
      CallRecord(cookie, err, done)
    }
  }

  class SessionSource {
    var cookie: Cookie
    var gen: nat
    var inflight: RotateCall?
    var persisted: seq<Cookie>         // what the Keychain took, oldest first
    ghost var calls: seq<RotateCall>   // every call ever started, oldest first
    ghost var position: nat            // where inflight stands in calls

    ghost predicate Valid()
      reads this, inflight
    {
      && (forall i, j | 0 <= i < j < |calls| :: calls[i] != calls[j])
      && (inflight != null ==> position < |calls| && calls[position] == inflight && !inflight.done)
    }

    ghost function View(): Core
      reads this, calls
    {
      Core(cookie, gen, if inflight == null then None else Some(position),
           seq(|calls|, i requires 0 <= i < |calls| reads this, calls => calls[i].Record()))
    }

    constructor (seed: Cookie)
      ensures Valid() && View() == Core(seed, 0, None, []) && persisted == []
    {
      cookie, gen, inflight, persisted, calls, position := seed, 0, null, [], [], 0;
    }

    /** Current: the cookie and the generation it was set at. */
    method Current() returns (current: Cookie, generation: nat)
      ensures current == View().cookie && generation == View().gen
    {
      current, generation := cookie, gen;
    }

    /**
     Rotate up to its first unlock: short-circuit (no call), join the rotation in flight, or lead a
     new one. `current` is the cookie to return or to rotate.
     */
    method Enter(usedGen: nat) returns (call: RotateCall?, leads: bool, current: Cookie, ghost entry: Entry)
      requires Valid()
      modifies this`inflight, this`calls, this`position
      ensures Valid() && (View(), entry) == EnterRotate(old(View()), usedGen)
      ensures match entry
              case ShortCircuit(c) => call == null && !leads && current == c
              case Join(k) => k < |calls| && calls[k] == call && call == old(inflight) && !leads
              case Lead(k, c) => k < |calls| && calls[k] == call && leads && current == c && fresh(call)
    {
      call, leads, current := null, false, cookie;
      if gen > usedGen {
        entry := ShortCircuit(cookie);
      } else if inflight != null {
        call, entry := inflight, Join(position);
      } else {
        var created := new RotateCall();
        inflight, position := created, |calls|;
        calls := calls + [created];
        call, leads, entry := created, true, Lead(|calls| - 1, cookie);
        assert View().calls == old(View()).calls + [CallRecord("", false, false)];
      }
    }

    /** The deferred function under the mutex: record the outcome, free the slot, advance on success. */
    method Publish(call: RotateCall, ghost k: nat, result: RotateResult)
      requires Valid() && k < |calls| && calls[k] == call
      modifies this`cookie, this`gen, this`inflight, call
      ensures Valid() && calls == old(calls) && View() == PublishOutcome(old(View()), k, result)
    {
      match result {
        case Rotated(fresh') =>
          call.cookie, call.err := fresh', false;
          cookie, gen := fresh', gen + 1;
        case RotateError =>
          call.cookie, call.err := "", true;
      }
      inflight := null;
      assert View().calls == PublishOutcome(old(View()), k, result).calls;
    }

    /** close(call.done), after the unlock: the slot is free or another call's by then. */
    method Close(call: RotateCall, ghost k: nat)
      requires Valid() && k < |calls| && calls[k] == call && !call.done && call != inflight
      modifies call
      ensures Valid() && View() == CloseDone(old(View()), k)
    {
      call.done := true;
      assert View().calls == CloseDone(old(View()), k).calls;
    }

    /** The leader's last two sections. */
    method Finish(call: RotateCall, ghost k: nat, result: RotateResult)
      requires Valid() && k < |calls| && calls[k] == call && !call.done
      modifies this`cookie, this`gen, this`inflight, call
      ensures Valid() && inflight == null && View() == CloseDone(PublishOutcome(old(View()), k, result), k)
      ensures (if call.err then RotateError else Rotated(call.cookie)) == result
    {
      assert View().calls[k] == call.Record();
      Publish(call, k, result);
      assert View().calls[k] == call.Record();
      Close(call, k);
      assert View().calls[k] == call.Record();
    }

    /** Best effort: `stored` is whether the cookie can be bound to an origin and the Keychain takes it. */
    method Persist(fresh': Cookie, stored: bool)
      modifies this`persisted
      ensures persisted == if stored then old(persisted) + [fresh'] else old(persisted)
    {
      if stored {
        persisted := persisted + [fresh'];
      }
    }

    /**
     Rotate as one goroutine runs it. `outcome` is what the one network call does that it makes or waits
     for, a panic included; while it waits, the two last sections of the leader run. The leader of a success
     persists it, whatever becomes of that.
     */
    method Rotate(usedGen: nat, outcome: Outcome, stored: bool) returns (result: RotateResult)
      requires Valid()
      modifies this, inflight
      ensures Valid()
      ensures old(gen) > usedGen ==> result == Rotated(old(cookie)) && cookie == old(cookie) && gen == old(gen)
      ensures old(gen) <= usedGen && outcome.Answered? ==>
                result == Rotated(outcome.cookie) && cookie == outcome.cookie && gen == old(gen) + 1
      ensures old(gen) <= usedGen && !outcome.Answered? ==>
                result == RotateError && cookie == old(cookie) && gen == old(gen)
      ensures var (entered, entry) := EnterRotate(old(View()), usedGen);
              && (if entry.ShortCircuit? then View() == old(View())
                  else
                    && entry.call < |entered.calls|
                    && View() == CloseDone(PublishOutcome(entered, entry.call, result), entry.call))
              && persisted == old(persisted) + if entry.Lead? && result.Rotated? && stored then [result.cookie] else []
    {
      var call, leads, current, entry := Enter(usedGen);
      if call == null {
        return Rotated(current);
      }
      Finish(call, entry.call, Recovered(outcome));
      result := if call.err then RotateError else Rotated(call.cookie);
      if leads && result.Rotated? {
        Persist(result.cookie, stored);
      }
    }
  }
}
