/**
 When pausing and resuming ends early: at the first request that finds the session dead, and for no other
 reason; and what is reported then.
 */
module RuleOpsStops {
  import opened Options
  import opened AlertModels
  import opened GroupPlan
  import opened PushRuns
  import opened PushTheorems
  import opened RuleOps
  import opened RuleOpsTheorems
  import opened Sequences

  /** A lookup that is made finds the session dead; an empty uid is never looked up. */
  predicate LookupDies(a: Answers, uids: seq<string>) {
    exists uid :: uid in uids && uid != "" && a.rule(uid) == DeadSession
  }

  /** The read of the batch's group finds the session dead, or the write does, if one is made. */
  predicate BatchDies(a: Answers, q: Request, b: Batch, groups: Groups) {
    a.group(b.ref) == DeadSession || (PutFor(a, q, b, groups).Some? && a.put(b.ref) == DeadSession)
  }

  lemma {:induction false} LookupsDie(a: Answers, groups: Groups, uids: seq<string>)
    ensures Dead(LookupResults(a, groups, uids)) <==> LookupDies(a, uids)
  {
    hide Lookup, Dead;
    if uids == [] {
      NothingDead();
    } else {
      var front, uid := uids[..|uids| - 1], uids[|uids| - 1];
      assert uids == front + [uid];
      LookupsDie(a, groups, front);
      var failure := LookupFailure(a, groups, uid);
      ResolvedSnoc(a, groups, front, uid);
      if failure.Some? {
        var y := OpResult(uid, "", "", false, failure);
        DeadConcat(LookupResults(a, groups, front), [y]);
        DeadOne(y);
      }
      assert LookupDies(a, uids) <==> LookupDies(a, front) || (uid != "" && a.rule(uid) == DeadSession);
    }
  }

  lemma FailsDead(rules: seq<Rule>, a: Answer, otherwise: OpFailure)
    requires a != Accept && otherwise != SessionDead
    ensures Dead(FailAll(rules, NotOK(a, otherwise))) <==> rules != [] && a == DeadSession
  {
    FailAllDead(rules, NotOK(a, otherwise));
  }

  /** The outcome of a batch says so exactly when one of its requests finds the session dead. */
  lemma BatchSaysDead(a: Answers, q: Request, b: Batch, groups: Groups)
    requires WellFormedGroups(groups) && b.rules != []
    ensures Dead(ResultsFor(a, q, b, groups)) <==> BatchDies(a, q, b, groups)
  {
    hide WellFormedGroups, Dead, Flips, Settled, Present, WriteBody, GroupHeader, NeedsFlip, SetPaused, FailAll,
      ChangeAll, NotOK;
    var answer := a.group(b.ref);
    if answer != Accept {
      FailsDead(b.rules, answer, GroupUnread);
    } else if b.ref !in groups {
      FailAllDead(b.rules, NotFound);
    } else {
      var g := groups[b.ref];
      var rules, header := Present(WriteBody(g, None).rules), GroupHeader(Present(g.rules));
      GroupsAreUnique(groups, b.ref);
      FlipsAreNeeded(b.rules, rules, q.paused);
      var flips := Flips(b.rules, rules, q.paused);
      var named, settled := At(rules, flips), Settled(b.rules, rules, q.paused);
      assert |named| == |flips|;
      SettledAlive(b.rules, rules, q.paused);
      ChangeAllAlive(named);
      DeadConcat(settled, ChangeAll(named));
      if header.Refuse? {
        FailAllDead(named, Refused(header.failure));
        DeadConcat(settled, FailAll(named, Refused(header.failure)));
      } else if !q.dryRun && a.put(b.ref) != Accept {
        FailsDead(named, a.put(b.ref), WriteFailed);
        DeadConcat(settled, FailAll(named, NotOK(a.put(b.ref), WriteFailed)));
      }
    }
  }

  ghost predicate SomeDies(a: Answers, q: Request, batches: seq<Batch>, groups: Groups) {
    exists b :: b in batches && BatchDies(a, q, b, groups)
  }

  lemma {:induction false} BatchesSayDead(a: Answers, q: Request, batches: seq<Batch>, groups: Groups)
    requires WellFormedGroups(groups) && forall b | b in batches :: b.rules != []
    ensures Dead(AllResults(a, q, batches, groups)) <==> SomeDies(a, q, batches, groups)
  {
    hide WellFormedGroups, Dead, BatchDies, ResultsFor;
    if batches == [] {
      NothingDead();
    } else {
      var front, last := batches[..|batches| - 1], batches[|batches| - 1];
      assert batches == front + [last] && last in batches;
      BatchesSayDead(a, q, front, groups);
      BatchSaysDead(a, q, last, groups);
      DeadConcat(AllResults(a, q, front, groups), ResultsFor(a, q, last, groups));
    }
  }

  /** The batches up to the first of which a request finds the session dead. */
  predicate UpToFirstDeath(a: Answers, q: Request, all: seq<Batch>, reached: seq<Batch>, groups: Groups) {
    && reached <= all
    && (forall i | 0 <= i < |reached| - 1 :: !BatchDies(a, q, reached[i], groups))
    && (reached != all ==> reached != [] && BatchDies(a, q, reached[|reached| - 1], groups))
  }

  /** A death in the front is the first of the whole. */
  lemma FirstDeathStands(a: Answers, q: Request, batches: seq<Batch>, k: nat, groups: Groups)
    requires batches != [] && k < |batches| && SomeDies(a, q, batches[..|batches| - 1], groups)
    requires UpToFirstDeath(a, q, batches[..|batches| - 1], batches[..|batches| - 1][..k], groups)
    ensures UpToFirstDeath(a, q, batches, batches[..k], groups)
  {
    hide BatchDies;
    var front := batches[..|batches| - 1];
    assert front[..k] == batches[..k];
    if front[..k] == front {
      var b :| b in front && BatchDies(a, q, b, groups);
      var i :| 0 <= i < |front| && front[i] == b;
      assert front[..k][i] == front[i] && i == k - 1;
    }
  }

  lemma NoneDies(a: Answers, q: Request, batches: seq<Batch>, groups: Groups)
    requires !SomeDies(a, q, batches, groups)
    ensures forall i | 0 <= i < |batches| :: !BatchDies(a, q, batches[i], groups)
  {
    hide BatchDies;
    forall i | 0 <= i < |batches| ensures !BatchDies(a, q, batches[i], groups) {
      assert batches[i] in batches;
    }
  }

  lemma {:induction false} ReachesFirstDeath(a: Answers, q: Request, batches: seq<Batch>, groups: Groups)
    requires WellFormedGroups(groups) && forall b | b in batches :: b.rules != []
    ensures UpToFirstDeath(a, q, batches, batches[..Reached(a, q, batches, groups)], groups)
  {
    hide WellFormedGroups, Dead, BatchDies, AllResults, SomeDies;
    if batches != [] {
      var n := |batches| - 1;
      var front := batches[..n];
      assert forall b | b in front :: b in batches;
      BatchesSayDead(a, q, front, groups);
      if Dead(AllResults(a, q, front, groups)) {
        ReachesFirstDeath(a, q, front, groups);
        FirstDeathStands(a, q, batches, Reached(a, q, front, groups), groups);
      } else {
        assert batches[..n + 1] == batches;
        NoneDies(a, q, front, groups);
      }
    }
  }

  /**
   A run is stopped exactly when a request it makes finds the session dead: a lookup, and then it reaches no
   batch, or the read or write of a group, and then it reaches no later batch. Otherwise it reaches them all.
   */
  lemma StopsAtDeadSession(a: Answers, q: Request, groups: Groups, uids: seq<string>)
    requires WellFormedGroups(groups)
    ensures var all, reached := RunBatches(a, groups, uids), RunReached(a, q, groups, uids);
            && (Dead(RunResults(a, q, groups, uids)) <==> LookupDies(a, uids) || SomeDies(a, q, reached, groups))
            && (if LookupDies(a, uids) then reached == [] else UpToFirstDeath(a, q, all, reached, groups))
  {
    hide WellFormedGroups, Dead, BatchDies, AllResults, LookupResults, BatchesOf, Resolved, Dedupe, Reached,
      Partitions;
    var all, reached := RunBatches(a, groups, uids), RunReached(a, q, groups, uids);
    BatchesPartition(Resolved(a, groups, Dedupe(uids)));
    PartsAreNotEmpty(all, Resolved(a, groups, Dedupe(uids)));
    LookupsDie(a, groups, Dedupe(uids));
    assert LookupDies(a, Dedupe(uids)) <==> LookupDies(a, uids);
    DeadConcat(LookupResults(a, groups, Dedupe(uids)), AllResults(a, q, all, groups));
    BatchesSayDead(a, q, all, groups);
    ReachesFirstDeath(a, q, all, groups);
    if !LookupDies(a, uids) {
      assert forall b | b in reached :: b in all;
      if reached != all {
        assert reached[|reached| - 1] in reached;
      }
    }
  }

  lemma PartsAreNotEmpty(batches: seq<Batch>, rules: seq<Rule>)
    requires Partitions(batches, rules)
    ensures forall b | b in batches :: b.rules != []
  {
  }

  /** The results up to the first that says the session is dead, that one included. */
  predicate UpToFirstDead(all: seq<OpResult>, filed: seq<OpResult>) {
    && filed <= all
    && (forall i | 0 <= i < |filed| - 1 :: filed[i].failure != Some(SessionDead))
    && (filed != all ==> EndsDead(filed))
  }

  predicate EndsDead(results: seq<OpResult>) {
    results != [] && results[|results| - 1].failure == Some(SessionDead)
  }

  lemma OneMoreResult(front: seq<OpResult>, last: OpResult)
    requires !Dead(front)
    ensures UpToFirstDead(front + [last], front + [last])
  {
    forall i | 0 <= i < |front| ensures (front + [last])[i].failure != Some(SessionDead) {
      assert front[i] in front;
    }
  }

  /** What is filed of a run are its results up to the first that says so, and the run stops exactly at such a one. */
  lemma {:induction false} FiledUpToFirstDeath(results: seq<OpResult>)
    ensures UpToFirstDead(results, UpToDead(results)) && (Dead(results) <==> EndsDead(UpToDead(results)))
  {
    hide Dead, UpToDead;
    if results == [] {
      NothingDead();
    } else {
      var front, last := results[..|results| - 1], results[|results| - 1];
      assert results == front + [last];
      UpToDeadSnoc(front, last);
      if Dead(front) {
        FiledUpToFirstDeath(front);
      } else {
        OneMoreResult(front, last);
      }
    }
  }

  /** A write of a group mirrors the provenance its rules are stored with, which they share. */
  lemma PauseMirrorsProvenance(a: Answers, q: Request, b: Batch, groups: Groups)
    requires WellFormedGroups(groups) && PutFor(a, q, b, groups).Some?
    ensures b.ref in groups && PutFor(a, q, b, groups).value.ref == b.ref
    ensures var rules := Present(groups[b.ref].rules);
            && !Mixed(rules)
            && Mirrors(if rules == [] then "" else rules[0].provenance, PutFor(a, q, b, groups).value.unclaimed)
  {
    hide Present, WriteBody, SetPaused, NeedsFlip, Mixed;
  }

  /** The result of a rule that was looked up names it by its title and group as Grafana holds them. */
  lemma ResultNamesRule(a: Answers, q: Request, groups: Groups, uid: string)
    requires a.rule(uid) == Accept && Lookup(groups, uid).Some?
    ensures var r, result := Lookup(groups, uid).value, Expected(a, q, groups, uid);
            && result.uid == uid
            && (r.title.Some? ==> result.title == r.title.value) && (r.title.None? ==> result.title == "")
            && (r.ruleGroup.Some? ==> result.group == r.ruleGroup.value)
            && (r.ruleGroup.None? ==> result.group == "")
            && (result.changed ==> result.failure.None?)
  {
    hide Lookup, GroupHeader, Present;
  }
}
