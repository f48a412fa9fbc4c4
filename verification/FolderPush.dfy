/**
 Pushing folders level by level. What a push of one folder does is a parameter: whether it fails in a way
 that stops the run. The pushes of one level run concurrently, so their events come in any order.
 */
module FolderPush {
  import opened FolderLevels
  import opened Sequences

  /** What the concurrent push of folders does, in the order it happens. */
  datatype Event = Started(name: string) | Finished(name: string)

  /** The folders being pushed after those events. */
  function InFlight(events: seq<Event>): set<string> {
    if events == [] then {}
    else
      var before, last := InFlight(events[..|events| - 1]), events[|events| - 1];
      if last.Started? then before + {last.name} else before - {last.name}
  }

  /** No event twice, a folder finishes after it starts, and no more than `limit` are in flight at a time. */
  ghost predicate Orderly(events: seq<Event>, limit: nat) {
    && Distinct(events)
    && (forall j | 0 <= j < |events| && events[j].Finished? :: Started(events[j].name) in events[..j])
    && (forall j | 0 <= j <= |events| :: |InFlight(events[..j])| <= limit)
  }

  /** One level's run: each of its folders, and no other, starts and finishes. */
  ghost predicate LevelRun(level: seq<Resource>, events: seq<Event>, limit: nat) {
    && Orderly(events, limit)
    && (forall e | e in events :: exists r :: r in level && r.name == e.name)
    && (forall r | r in level :: Started(r.name) in events && Finished(r.name) in events)
  }

  /** The first `next` folders have started and those of `running` have not finished. */
  ghost predicate UpTo(level: seq<Resource>, events: seq<Event>, next: nat, running: set<string>)
    requires next <= |level|
  {
    && (forall e | e in events :: NamedBefore(level, next, e.name))
    && (forall i | 0 <= i < next ::
          Started(level[i].name) in events && (Finished(level[i].name) in events <==> level[i].name !in running))
    && (forall name | name in running :: NamedBefore(level, next, name))
  }

  ghost predicate NamedBefore(level: seq<Resource>, next: nat, name: string)
    requires next <= |level|
  {
    exists i :: 0 <= i < next && level[i].name == name
  }

  /** Every push that has ended succeeded, or ok is false. */
  ghost predicate Tells(level: seq<Resource>, next: nat, running: set<string>, fails: string -> bool, ok: bool)
    requires next <= |level|
  {
    ok <==> forall i | 0 <= i < next && level[i].name !in running :: !fails(level[i].name)
  }

  /** No name stands twice. */
  ghost predicate NamesDistinct(level: seq<Resource>) {
    forall i, j | 0 <= i < j < |level| :: level[i].name != level[j].name
  }

  /** A level part of the way. */
  ghost predicate Underway(level: seq<Resource>, events: seq<Event>, limit: nat, next: nat, running: set<string>,
                           fails: string -> bool, ok: bool)
    requires next <= |level|
  {
    Orderly(events, limit) && running == InFlight(events) && UpTo(level, events, next, running)
        && Tells(level, next, running, fails, ok)
  }

  lemma InFlightSnoc(events: seq<Event>, e: Event)
    ensures InFlight(events + [e]) == if e.Started? then InFlight(events) + {e.name} else InFlight(events) - {e.name}
  {
    assert (events + [e])[..|events|] == events;
  }

  lemma OrderlySnoc(events: seq<Event>, e: Event, limit: nat)
    requires Orderly(events, limit) && e !in events && (e.Finished? ==> Started(e.name) in events)
    requires |InFlight(events + [e])| <= limit
    ensures Orderly(events + [e], limit)
  {
    hide InFlight;
    var after := events + [e];
    forall j | 0 <= j <= |after| ensures after[..j] == (if j <= |events| then events[..j] else after) {
    }
    assert events[..|events|] == events;
  }

  lemma UpToStart(level: seq<Resource>, events: seq<Event>, next: nat, running: set<string>)
    requires next < |level| && UpTo(level, events, next, running) && NamesDistinct(level)
    ensures Started(level[next].name) !in events && level[next].name !in running
    ensures UpTo(level, events + [Started(level[next].name)], next + 1, running + {level[next].name})
  {
    var name := level[next].name;
    assert !NamedBefore(level, next, name);
    forall x | NamedBefore(level, next, x) || x == name ensures NamedBefore(level, next + 1, x) {
      if x == name {
        assert level[next].name == x;
      } else {
        var i :| 0 <= i < next && level[i].name == x;
      }
    }
  }

  lemma UpToFinish(level: seq<Resource>, events: seq<Event>, next: nat, running: set<string>, name: string)
    requires next <= |level| && UpTo(level, events, next, running) && name in running
    ensures Started(name) in events && Finished(name) !in events
    ensures UpTo(level, events + [Finished(name)], next, running - {name})
  {
    hide NamedBefore;
    NamedIsStarted(level, events, next, running, name);
  }

  lemma NamedIsStarted(level: seq<Resource>, events: seq<Event>, next: nat, running: set<string>, name: string)
    requires next <= |level| && UpTo(level, events, next, running) && name in running
    ensures Started(name) in events && Finished(name) !in events
  {
    assert NamedBefore(level, next, name);
    var i :| 0 <= i < next && level[i].name == name;
  }

  lemma StartNext(level: seq<Resource>, events: seq<Event>, limit: nat, next: nat, running: set<string>,
                  fails: string -> bool, ok: bool)
    requires next < |level| && Underway(level, events, limit, next, running, fails, ok) && NamesDistinct(level)
             && |running| < limit
    ensures var name := level[next].name;
            Underway(level, events + [Started(name)], limit, next + 1, running + {name}, fails, ok)
  {
    hide InFlight, UpTo, Orderly;
    UpToStart(level, events, next, running);
    InFlightSnoc(events, Started(level[next].name));
    OrderlySnoc(events, Started(level[next].name), limit);
  }

  lemma FinishOne(level: seq<Resource>, events: seq<Event>, limit: nat, next: nat, running: set<string>,
                  fails: string -> bool, ok: bool, name: string)
    requires next <= |level| && Underway(level, events, limit, next, running, fails, ok) && name in running
    ensures Underway(level, events + [Finished(name)], limit, next, running - {name}, fails, ok && !fails(name))
  {
    hide InFlight, UpTo, Orderly, Tells;
    UpToFinish(level, events, next, running, name);
    InFlightSnoc(events, Finished(name));
    RunningFits(events, limit);
    SubsetIsNotLarger(running - {name}, running);
    OrderlySnoc(events, Finished(name), limit);
    TellsOneMore(level, events, next, running, fails, ok, name);
  }

  lemma RunningFits(events: seq<Event>, limit: nat)
    requires Orderly(events, limit)
    ensures |InFlight(events)| <= limit
  {
    assert events[..|events|] == events;
  }

  lemma TellsOneMore(level: seq<Resource>, events: seq<Event>, next: nat, running: set<string>, fails: string -> bool,
                     ok: bool, name: string)
    requires next <= |level| && UpTo(level, events, next, running) && Tells(level, next, running, fails, ok)
             && name in running
    ensures Tells(level, next, running - {name}, fails, ok && !fails(name))
  {
    assert NamedBefore(level, next, name);
    var i :| 0 <= i < next && level[i].name == name;
    if ok && !fails(name) {
      forall k | 0 <= k < next && level[k].name !in running - {name} ensures !fails(level[k].name) {
      }
    }
  }

  lemma LevelBegins(level: seq<Resource>, limit: nat, fails: string -> bool)
    ensures Underway(level, [], limit, 0, {}, fails, true)
  {
  }

  lemma LevelEnds(level: seq<Resource>, events: seq<Event>, limit: nat, fails: string -> bool, ok: bool)
    requires Underway(level, events, limit, |level|, {}, fails, ok)
    ensures LevelRun(level, events, limit) && (ok <==> forall r | r in level :: !fails(r.name))
  {
    hide InFlight, Orderly;
    forall e | e in events ensures exists r :: r in level && r.name == e.name {
      assert NamedBefore(level, |level|, e.name);
      var i :| 0 <= i < |level| && level[i].name == e.name;
      assert level[i] in level;
    }
    forall r | r in level ensures Started(r.name) in events && Finished(r.name) in events {
      var i :| 0 <= i < |level| && level[i] == r;
    }
    if ok {
      forall r | r in level ensures !fails(r.name) {
        var i :| 0 <= i < |level| && level[i] == r;
      }
    }
    assert forall i | 0 <= i < |level| :: level[i] in level;
  }

  /**
   Every folder of a level is pushed, no more than `limit` at a time and in an order nobody controls; all are
   waited for.
   */
  method PushLevel(level: seq<Resource>, limit: nat, fails: string -> bool) returns (events: seq<Event>, ok: bool)
    requires NamesDistinct(level) && limit > 0
    ensures LevelRun(level, events, limit)
    ensures ok <==> forall r | r in level :: !fails(r.name)
  {
    hide *;
    var next: nat, running: set<string> := 0, {};
    events, ok := [], true;
    LevelBegins(level, limit, fails);
    while next < |level| || running != {}
      invariant next <= |level| && Underway(level, events, limit, next, running, fails, ok)
      decreases |level| - next, |running|
    {
      var starts: bool := *;
      if next < |level| && |running| < limit && (running == {} || starts) {
        StartNext(level, events, limit, next, running, fails, ok);
        events := events + [Started(level[next].name)];
        running := running + {level[next].name};
        next := next + 1;
      } else {
        var name :| name in running;
        FinishOne(level, events, limit, next, running, fails, ok, name);
        events := events + [Finished(name)];
        running := running - {name};
        ok := ok && !fails(name);
      }
    }
    LevelEnds(level, events, limit, fails, ok);
  }

  /** No folder starts before its parent, when the set has it, has finished. */
  ghost predicate ParentFirst(m: map<string, Resource>, events: seq<Event>) {
    forall j | 0 <= j < |events| && events[j].Started? && events[j].name in m && !IsRoot(m, events[j].name) ::
      Finished(m[events[j].name].folder) in events[..j]
  }

  /** Every folder of the first n levels has finished. */
  ghost predicate FinishedTo(levels: seq<seq<Resource>>, n: nat, events: seq<Event>)
    requires n <= |levels|
  {
    forall d, r | 0 <= d < n && r in levels[d] :: Finished(r.name) in events
  }

  /** The parent of a folder of the next level has finished. */
  lemma ParentHasFinished(m: map<string, Resource>, levels: seq<seq<Resource>>, d: nat, events: seq<Event>,
                          child: string)
    requires GroupedByDepth(m, levels) && (forall u | u in m :: m[u].name == u) && d < |levels|
             && FinishedTo(levels, d, events)
    requires child in m && !IsRoot(m, child) && exists r :: r in levels[d] && r.name == child
    ensures Finished(m[child].folder) in events
  {
    hide HasDepth;
    var r :| r in levels[d] && r.name == child;
    ParentOneLevelEarlier(m, levels, d, r);
    LevelHolds(m, levels, d, r);
  }

  /** However the writes of a level interleave, a folder starts only after its parent has finished. */
  lemma ParentFinishesFirst(m: map<string, Resource>, levels: seq<seq<Resource>>, d: nat, events: seq<Event>,
                            run: seq<Event>, limit: nat)
    requires GroupedByDepth(m, levels) && (forall u | u in m :: m[u].name == u) && d < |levels|
    requires ParentFirst(m, events) && FinishedTo(levels, d, events) && LevelRun(levels[d], run, limit)
    ensures ParentFirst(m, events + run) && FinishedTo(levels, d + 1, events + run)
  {
    hide Orderly, GroupedByDepth, IsRoot;
    var all := events + run;
    forall j | 0 <= j < |all| && all[j].Started? && all[j].name in m && !IsRoot(m, all[j].name)
      ensures Finished(m[all[j].name].folder) in all[..j]
    {
      if j < |events| {
        assert all[..j] == events[..j];
      } else {
        assert all[j] in run;
        ParentHasFinished(m, levels, d, events, all[j].name);
        assert all[..|events|] == events && events <= all[..j];
      }
    }
  }

  /**
   The folders, level by level: a level begins when the one before has finished whole, and none does after
   one in which a push failed.
   */
  method PushFolders(folders: seq<Resource>, maxConcurrency: int, fails: string -> bool)
    returns (events: seq<Event>, ok: bool)
    ensures ParentFirst(ByName(folders), events)
    ensures HasCycle(ByName(folders)) ==> events == []
    ensures ok <==> !HasCycle(ByName(folders)) && forall u | u in ByName(folders) :: !fails(u)
    ensures ok ==> forall u | u in ByName(folders) :: Finished(u) in events
  {
    hide ByName, HasCycle, GroupedByDepth, LevelRun, ParentFirst, FinishedTo, IsRoot;
    var limit := if maxConcurrency < 1 then 1 else maxConcurrency;
    ghost var m := ByName(folders);
    var sorted := SortFoldersByDependency(folders);
    events, ok := [], false;
    NothingPushed(m);
    if sorted.Circular? {
      return;
    }
    var levels := sorted.levels;
    LevelsNames(m, levels);
    assert FinishedTo(levels, 0, events) by { NothingFinished(levels); }
    for d := 0 to |levels|
      invariant ParentFirst(m, events) && FinishedTo(levels, d, events)
      invariant forall e, r: Resource | 0 <= e < d && r in levels[e] :: !fails(r.name)
    {
      var run;
      run, ok := PushLevel(levels[d], limit, fails);
      ParentFinishesFirst(m, levels, d, events, run, limit);
      events := events + run;
      if !ok {
        var r: Resource :| r in levels[d] && fails(r.name);
        LevelHolds(m, levels, d, r);
        return;
      }
    }
    AllPushed(m, levels, events, fails);
    ok := true;
  }

  lemma NothingPushed(m: map<string, Resource>)
    ensures ParentFirst(m, [])
  {
  }

  lemma NothingFinished(levels: seq<seq<Resource>>)
    ensures FinishedTo(levels, 0, [])
  {
  }

  lemma LevelsNames(m: map<string, Resource>, levels: seq<seq<Resource>>)
    requires GroupedByDepth(m, levels)
    ensures forall d | 0 <= d < |levels| :: NamesDistinct(levels[d])
  {
    hide HasDepth;
  }

  lemma LevelHolds(m: map<string, Resource>, levels: seq<seq<Resource>>, d: nat, r: Resource)
    requires GroupedByDepth(m, levels) && d < |levels| && r in levels[d]
    ensures r.name in m && m[r.name] == r
  {
    hide HasDepth;
  }

  lemma AllPushed(m: map<string, Resource>, levels: seq<seq<Resource>>, events: seq<Event>, fails: string -> bool)
    requires GroupedByDepth(m, levels) && FinishedTo(levels, |levels|, events) && forall u | u in m :: m[u].name == u
    requires forall e, r | 0 <= e < |levels| && r in levels[e] :: !fails(r.name)
    ensures forall u | u in m :: !fails(u) && Finished(u) in events
  {
    hide HasDepth;
    forall u | u in m ensures !fails(u) && Finished(u) in events {
      assert Holds(levels, m[u]);
      var d :| 0 <= d < |levels| && m[u] in levels[d];
    }
  }
}
