/** What a pause or resume run does to Grafana, what it reports, and what running it again does. */
module RuleOpsTheorems {
  import opened Options
  import opened AlertModels
  import opened GroupPlan
  import opened PushRuns
  import opened ScopedPushTheorems
  import opened RuleOps
  import opened Sequences

  // ---------------------------------------------------------------------------------------------
  // At most one write per group
  // ---------------------------------------------------------------------------------------------

  ghost predicate RefsDistinct(batches: seq<Batch>) {
    forall i, j | 0 <= i < j < |batches| :: batches[i].ref != batches[j].ref
  }

  /** No group is written twice, each write is the write of its batch, and a dry run makes none. */
  lemma {:induction false} EachGroupIsWrittenOnce(a: Answers, q: Request, batches: seq<Batch>, groups: Groups)
    requires WellFormedGroups(groups) && RefsDistinct(batches)
    ensures var puts := PutsFor(a, q, batches, groups);
            && (forall i, j | 0 <= i < j < |puts| :: puts[i].ref != puts[j].ref)
            && (forall p | p in puts :: exists b ::
                  b in batches && b.ref == p.ref && PutFor(a, q, b, groups) == Some(p))
            && (q.dryRun ==> puts == [])
  {
    hide PutFor, WellFormedGroups;
    if batches != [] {
      var front, last := batches[..|batches| - 1], batches[|batches| - 1];
      EachGroupIsWrittenOnce(a, q, front, groups);
      assert batches == front + [last];
      WriteIsAddressed(a, q, last, groups);
      forall p | p in PutsFor(a, q, front, groups) ensures p.ref != last.ref {
        var b :| b in front && b.ref == p.ref && PutFor(a, q, b, groups) == Some(p);
        var k :| 0 <= k < |front| && front[k] == b;
        assert batches[k] == b;
      }
      forall p | p in PutsFor(a, q, batches, groups)
        ensures exists b :: b in batches && b.ref == p.ref && PutFor(a, q, b, groups) == Some(p)
      {
        if p in PutsFor(a, q, front, groups) {
          var b :| b in front && b.ref == p.ref && PutFor(a, q, b, groups) == Some(p);
          assert b in batches;
        } else {
          assert last in batches;
        }
      }
    }
  }

  lemma WriteIsAddressed(a: Answers, q: Request, batch: Batch, groups: Groups)
    requires WellFormedGroups(groups)
    ensures PutFor(a, q, batch, groups).Some? ==> PutFor(a, q, batch, groups).value.ref == batch.ref
    ensures q.dryRun ==> PutFor(a, q, batch, groups).None?
  {
    hide WellFormedGroup, NeedsFlip, GroupHeader, WriteBody;
  }

  // ---------------------------------------------------------------------------------------------
  // The effect on Grafana
  // ---------------------------------------------------------------------------------------------

  lemma HeldRule(groups: Groups, ref: GroupRef, i: nat)
    requires WellFormedGroups(groups) && ref in groups && i < |Present(groups[ref].rules)|
    ensures var r := Present(groups[ref].rules)[i];
            RefOfRule(r) == ref && r.uid != "" && Lookup(groups, r.uid) == Some(r)
  {
    hide Lookup, Present;
    var rules := Present(groups[ref].rules);
    FindUnique(rules, i);
    assert rules[i] in rules;
    FoundByLookup(groups, rules[i].uid, Some(rules[i]));
  }

  lemma LookedUpRule(groups: Groups, uid: string)
    requires WellFormedGroups(groups) && Lookup(groups, uid).Some?
    ensures var r := Lookup(groups, uid).value;
            r.uid == uid && RefOfRule(r) in groups && r in Present(groups[RefOfRule(r)].rules)
  {
    hide Lookup, Present;
    var r := Lookup(groups, uid).value;
    var ref :| ref in groups && r in Present(groups[ref].rules);
    var i :| 0 <= i < |Present(groups[ref].rules)| && Present(groups[ref].rules)[i] == r;
    HeldRule(groups, ref, i);
  }

  lemma {:induction false} ResolvedMember(a: Answers, groups: Groups, uids: seq<string>, r: Rule)
    ensures r in Resolved(a, groups, uids) <==>
            r.uid in uids && a.rule(r.uid) == Accept && Lookup(groups, r.uid) == Some(r)
  {
    hide Lookup;
    if uids != [] {
      ResolvedMember(a, groups, uids[..|uids| - 1], r);
      assert uids == uids[..|uids| - 1] + [uids[|uids| - 1]];
    }
  }

  /** Every answer is a success. */
  ghost predicate AllAccepted(a: Answers) {
    (forall uid :: a.rule(uid) == Accept) && (forall ref :: a.group(ref) == Accept && a.put(ref) == Accept)
  }

  /** The batch of a group names exactly the named rules it holds. */
  lemma BatchNames(a: Answers, batches: seq<Batch>, groups: Groups, uids: seq<string>, ref: GroupRef, i: nat)
    requires WellFormedGroups(groups) && AllAccepted(a) && Partitions(batches, Resolved(a, groups, uids))
    requires ref in groups && i < |Present(groups[ref].rules)|
    ensures var r := Present(groups[ref].rules)[i];
            && (r.uid in uids ==> exists b :: b in batches && b.ref == ref)
            && (forall b | b in batches && b.ref == ref :: r.uid in UIDSet(b.rules) <==> r.uid in uids)
  {
    hide Lookup, Present, Resolved, RulesOf, WellFormedGroup;
    var r := Present(groups[ref].rules)[i];
    HeldRule(groups, ref, i);
    ResolvedMember(a, groups, uids, r);
    RulesOfMember(Resolved(a, groups, uids), ref, r);
    forall b | b in batches && b.ref == ref ensures r.uid in UIDSet(b.rules) <==> r.uid in uids {
      if x :| x in b.rules && x.uid == r.uid {
        RulesOfMember(Resolved(a, groups, uids), ref, x);
        ResolvedMember(a, groups, uids, x);
      }
    }
  }

  function UIDsNamed(uids: seq<string>): set<string> {
    set u | u in uids
  }

  lemma SamePause(before: Group, after: Group, u: set<string>, v: set<string>, paused: bool)
    requires GroupPaused(before, after, u, paused)
    requires forall r | r in Present(before.rules) :: r.uid in u <==> r.uid in v
    ensures GroupPaused(before, after, v, paused)
  {
    hide Present;
    var b, c := Present(before.rules), Present(after.rules);
    forall i | 0 <= i < |b| ensures OnlyPaused(b[i], c[i], b[i].uid in v, paused) {
      assert b[i] in b && OnlyPaused(b[i], c[i], b[i].uid in u, paused);
    }
  }

  /** What one batch leaves of its own group. */
  lemma BatchPauses(a: Answers, q: Request, b: Batch, groups: Groups)
    requires WellFormedGroups(groups) && AllAccepted(a) && !q.dryRun && b.ref in groups
    ensures var after := GroupsAfter(a, q, b, groups);
            b.ref in after
            && if GroupHeader(Present(groups[b.ref].rules)).Send? then
               GroupPaused(groups[b.ref], after[b.ref], UIDSet(b.rules), q.paused)
               else after[b.ref] == groups[b.ref]
  {
    hide WellFormedGroup, Present, GroupHeader, GroupPaused, NeedsFlip, Stamped, UIDSet;
    var g := groups[b.ref];
    FlipOfBody(g, UIDSet(b.rules), q.paused);
    if PauseWrite(g, UIDSet(b.rules), q.paused).Some? {
      WrittenIsPaused(a, g, UIDSet(b.rules), q.paused);
    } else if GroupHeader(Present(g.rules)).Send? {
      UnflippedIsPaused(g, UIDSet(b.rules), q.paused);
    }
  }

  /** Only a group's own batch touches it. */
  lemma AfterOwnBatch(a: Answers, q: Request, batches: seq<Batch>, groups: Groups, k: nat)
    requires RefsDistinct(batches) && k < |batches| && batches[k].ref in groups
    ensures var after, own := AfterAll(a, q, batches, groups), GroupsAfter(a, q, batches[k], groups);
            && batches[k].ref in after && batches[k].ref in own
            && after[batches[k].ref] == own[batches[k].ref]
  {
    hide PauseWrite;
    if k == |batches| - 1 {
      OthersUntouched(a, q, batches[..k], groups, batches[k].ref);
      assert batches[..|batches| - 1] == batches[..k];
    } else {
      var front := batches[..|batches| - 1];
      AfterOwnBatch(a, q, front, groups, k);
      assert front[k] == batches[k];
    }
  }

  /**
   The exact effect: when every answer is a success, each group whose provenance allows the write ends with
   the named rules it holds in the requested state and nothing else changed but the read-only stamps; a
   group that refuses the write is as it was.
   */
  lemma PauseIsExact(a: Answers, q: Request, batches: seq<Batch>, groups: Groups, uids: seq<string>)
    requires WellFormedGroups(groups) && AllAccepted(a) && !q.dryRun
    requires Partitions(batches, Resolved(a, groups, uids))
    ensures var after := AfterAll(a, q, batches, groups);
            forall ref | ref in groups ::
              ref in after
              && if GroupHeader(Present(groups[ref].rules)).Send? then
                 GroupPaused(groups[ref], after[ref], UIDsNamed(uids), q.paused)
                 else after[ref] == groups[ref]
  {
    hide WellFormedGroups, AllAccepted, Present, Resolved, GroupHeader, GroupPaused, AfterAll, GroupsAfter, UIDSet,
      RulesOf;
    forall ref | ref in groups
      ensures ref in AfterAll(a, q, batches, groups)
      ensures if GroupHeader(Present(groups[ref].rules)).Send?
              then GroupPaused(groups[ref], AfterAll(a, q, batches, groups)[ref], UIDsNamed(uids), q.paused)
              else AfterAll(a, q, batches, groups)[ref] == groups[ref]
    {
      var rules := Present(groups[ref].rules);
      if b :| b in batches && b.ref == ref {
        var k :| 0 <= k < |batches| && batches[k] == b;
        AfterOwnBatch(a, q, batches, groups, k);
        BatchPauses(a, q, b, groups);
        forall r | r in rules ensures r.uid in UIDSet(b.rules) <==> r.uid in UIDsNamed(uids) {
          var i :| 0 <= i < |rules| && rules[i] == r;
          BatchNames(a, batches, groups, uids, ref, i);
        }
        if GroupHeader(rules).Send? {
          SamePause(groups[ref], AfterAll(a, q, batches, groups)[ref], UIDSet(b.rules), UIDsNamed(uids), q.paused);
        }
      } else {
        OthersUntouched(a, q, batches, groups, ref);
        assert !NeedsFlip(rules, UIDsNamed(uids), q.paused) by {
          if r :| r in rules && r.uid in UIDsNamed(uids) {
            var i :| 0 <= i < |rules| && rules[i] == r;
            BatchNames(a, batches, groups, uids, ref, i);
          }
        }
        UnflippedIsPaused(groups[ref], UIDsNamed(uids), q.paused);
      }
    }
  }

  // ---------------------------------------------------------------------------------------------
  // The report
  // ---------------------------------------------------------------------------------------------

  /** What the run reports of one named uid while the session lives. */
  ghost function Expected(a: Answers, q: Request, groups: Groups, uid: string): OpResult {
    if uid != "" && a.rule(uid) != Accept then OpResult(uid, "", "", false, Some(NotOK(a.rule(uid), LookupFailed)))
    else if Lookup(groups, uid).None? then OpResult(uid, "", "", false, Some(NotFound))
    else
      var r := Lookup(groups, uid).value;
      var ref := RefOfRule(r);
      if a.group(ref) != Accept then FailureFor(r, NotOK(a.group(ref), GroupUnread))
      else if r.isPaused == q.paused then ResultFor(r)
      else
        var header := if ref in groups then GroupHeader(Present(groups[ref].rules)) else Send(true);
        if header.Refuse? then FailureFor(r, Refused(header.failure))
        else if !q.dryRun && a.put(ref) != Accept then FailureFor(r, NotOK(a.put(ref), WriteFailed))
        else ResultFor(r).(changed := true)
  }

  lemma {:induction false} FiledAt(outcome: map<string, OpResult>, results: seq<OpResult>, uid: string, x: OpResult)
    requires forall y | y in results && y.uid == uid :: y == x
    ensures (exists y :: y in results && y.uid == uid) ==>
            uid in Filed(outcome, results) && Filed(outcome, results)[uid] == x
    ensures (forall y | y in results :: y.uid != uid) ==>
              (uid in Filed(outcome, results) <==> uid in outcome)
              && (uid in outcome ==> Filed(outcome, results)[uid] == outcome[uid])
  {
    if results != [] {
      var front, last := results[..|results| - 1], results[|results| - 1];
      assert results == front + [last];
      FiledAt(outcome, front, uid, x);
    }
  }

  /** Every result is the expected one of its uid. */
  ghost predicate AsExpected(results: seq<OpResult>, a: Answers, q: Request, groups: Groups) {
    forall y | y in results :: y == Expected(a, q, groups, y.uid)
  }

  ghost predicate Mentions(results: seq<OpResult>, uid: string) {
    exists y :: y in results && y.uid == uid
  }

  lemma {:induction false} LookupsAsExpected(a: Answers, q: Request, groups: Groups, uids: seq<string>)
    ensures AsExpected(LookupResults(a, groups, uids), a, q, groups)
    ensures forall uid | uid in uids && (a.rule(uid) != Accept || Lookup(groups, uid).None?) ::
            Mentions(LookupResults(a, groups, uids), uid)
  {
    hide Lookup, GroupHeader;
    if uids != [] {
      var front, last := uids[..|uids| - 1], uids[|uids| - 1];
      assert uids == front + [last];
      LookupsAsExpected(a, q, groups, front);
      LookupOfNothing(groups);
      var before, after := LookupResults(a, groups, front), LookupResults(a, groups, uids);
      assert before <= after;
      forall uid | uid in uids && (a.rule(uid) != Accept || Lookup(groups, uid).None?) ensures Mentions(after, uid) {
        if uid in front {
          var y :| y in before && y.uid == uid;
          assert y in after;
        } else {
          assert after[|after| - 1] in after;
        }
      }
    }
  }

  predicate SettledAs(r: Rule, body: seq<Rule>, paused: bool, y: OpResult) {
    var current := FindRule(body, r.uid);
    if current.None? then y == FailureFor(r, NoLongerHeld) else current.value.isPaused == paused && y == ResultFor(r)
  }

  lemma {:induction false} SettledMember(named: seq<Rule>, body: seq<Rule>, paused: bool, y: OpResult)
    ensures y in Settled(named, body, paused) <==> exists r :: r in named && SettledAs(r, body, paused, y)
  {
    if named != [] {
      hide FindRule;
      var front, last := named[..|named| - 1], named[|named| - 1];
      assert named == front + [last];
      SettledMember(front, body, paused, y);
      assert y in Settled(named, body, paused) <==>
        y in Settled(front, body, paused) || SettledAs(last, body, paused, y);
      if r :| r in named && SettledAs(r, body, paused, y) {
        assert r in front || r == last;
      }
      if r :| r in front && SettledAs(r, body, paused, y) {
        assert r in named;
      }
      assert last in named;
    }
  }

  /** The rule of the written body at the place of a held rule. */
  lemma BodyRule(g: Group, i: nat)
    requires WellFormedGroup(g) && i < |Present(g.rules)|
    ensures var r, body := Present(g.rules)[i], Present(WriteBody(g, None).rules);
            && |body| == |Present(g.rules)| && UniqueUIDs(body)
            && body[i].uid == r.uid && body[i].isPaused == r.isPaused && ResultFor(body[i]) == ResultFor(r)
            && FindRule(body, r.uid) == Some(body[i])
  {
    hide Present, WriteBody, UniqueUIDs, FindRule;
    BodyIsUnique(g);
    WrittenRules(g, None);
    assert Present(g.rules)[i] in Present(g.rules);
    FindUnique(Present(WriteBody(g, None).rules), i);
  }

  /** A rule of a batch is a rule of its group, and the one its uid looks up. */
  lemma BatchRule(a: Answers, batches: seq<Batch>, groups: Groups, uids: seq<string>, b: Batch, r: Rule)
    returns (i: nat)
    requires WellFormedGroups(groups) && Partitions(batches, Resolved(a, groups, uids)) && b in batches && r in b.rules
    ensures b.ref in groups && i < |Present(groups[b.ref].rules)| && Present(groups[b.ref].rules)[i] == r
    ensures RefOfRule(r) == b.ref && Lookup(groups, r.uid) == Some(r) && a.rule(r.uid) == Accept && r.uid in uids
  {
    hide Lookup, Present, Resolved, RulesOf, WellFormedGroup, WellFormedGroups;
    RulesOfMember(Resolved(a, groups, uids), b.ref, r);
    ResolvedMember(a, groups, uids, r);
    LookedUpRule(groups, r.uid);
    i :| 0 <= i < |Present(groups[b.ref].rules)| && Present(groups[b.ref].rules)[i] == r;
  }

  /** The outcome of a rule the batch flips. */
  function FlipResult(a: Answers, q: Request, g: Group, ref: GroupRef, r: Rule): OpResult {
    var header := GroupHeader(Present(g.rules));
    if header.Refuse? then FailureFor(r, Refused(header.failure))
    else if !q.dryRun && a.put(ref) != Accept then FailureFor(r, NotOK(a.put(ref), WriteFailed))
    else ResultFor(r).(changed := true)
  }

  function FlipResults(a: Answers, q: Request, g: Group, ref: GroupRef, named: seq<Rule>): seq<OpResult> {
    seq(|named|, i requires 0 <= i < |named| => FlipResult(a, q, g, ref, named[i]))
  }

  lemma ResultsSplit(a: Answers, q: Request, b: Batch, groups: Groups)
    requires b.ref in groups && a.group(b.ref) == Accept
    ensures var g := groups[b.ref];
            var body := Present(WriteBody(g, None).rules);
            ResultsFor(a, q, b, groups) ==
            Settled(b.rules, body, q.paused) + FlipResults(a, q, g, b.ref, At(body, Flips(b.rules, body, q.paused)))
  {
    hide WriteBody, Present, Settled, Flips, GroupHeader, At, ResultFor;
    var g := groups[b.ref];
    var body := Present(WriteBody(g, None).rules);
    var named, header := At(body, Flips(b.rules, body, q.paused)), GroupHeader(Present(g.rules));
    if header.Refuse? {
      assert FlipResults(a, q, g, b.ref, named) == FailAll(named, Refused(header.failure));
    } else if !q.dryRun && a.put(b.ref) != Accept {
      assert FlipResults(a, q, g, b.ref, named) == FailAll(named, NotOK(a.put(b.ref), WriteFailed));
    } else {
      assert FlipResults(a, q, g, b.ref, named) == ChangeAll(named);
    }
  }

  lemma FlipResultsMember(a: Answers, q: Request, g: Group, ref: GroupRef, body: seq<Rule>, flips: seq<nat>,
                          y: OpResult)
    requires forall p | p in flips :: p < |body|
    ensures y in FlipResults(a, q, g, ref, At(body, flips)) <==>
            exists p :: p in flips && y == FlipResult(a, q, g, ref, body[p])
  {
    hide FlipResult;
    var results := FlipResults(a, q, g, ref, At(body, flips));
    if p :| p in flips && y == FlipResult(a, q, g, ref, body[p]) {
      var k :| 0 <= k < |flips| && flips[k] == p;
      assert results[k] in results;
    }
    if y in results {
      var k :| 0 <= k < |results| && results[k] == y;
      assert flips[k] in flips;
    }
  }

  lemma BatchResults(a: Answers, q: Request, b: Batch, groups: Groups, y: OpResult)
    requires b.ref in groups && a.group(b.ref) == Accept
    ensures var g := groups[b.ref];
            var body := Present(WriteBody(g, None).rules);
            y in ResultsFor(a, q, b, groups) <==>
            || y in Settled(b.rules, body, q.paused)
            || exists p :: p in Flips(b.rules, body, q.paused) && y == FlipResult(a, q, g, b.ref, body[p])
  {
    hide WriteBody, Present, Settled, Flips, GroupHeader, ResultsFor, At, FlipResult, FlipResults;
    ResultsSplit(a, q, b, groups);
    var g := groups[b.ref];
    var body := Present(WriteBody(g, None).rules);
    FlipResultsMember(a, q, g, b.ref, body, Flips(b.rules, body, q.paused), y);
  }

  lemma BatchAsExpected(a: Answers, q: Request, batches: seq<Batch>, groups: Groups, uids: seq<string>, b: Batch)
    requires WellFormedGroups(groups) && Partitions(batches, Resolved(a, groups, uids)) && b in batches
    ensures AsExpected(ResultsFor(a, q, b, groups), a, q, groups)
    ensures forall r | r in b.rules :: Mentions(ResultsFor(a, q, b, groups), r.uid)
  {
    hide WellFormedGroups, Partitions, Lookup, Resolved, Settled, Flips, WriteBody, Present, GroupHeader;
    if a.group(b.ref) != Accept {
      UnreadAsExpected(a, q, batches, groups, uids, b);
    } else {
      assert b.ref in groups by { BatchHasGroup(a, batches, groups, uids, b); }
      forall y | y in ResultsFor(a, q, b, groups) ensures y == Expected(a, q, groups, y.uid) {
        ResultAsExpected(a, q, batches, groups, uids, b, y);
      }
      forall r | r in b.rules ensures Mentions(ResultsFor(a, q, b, groups), r.uid) {
        RuleIsMentioned(a, q, batches, groups, uids, b, r);
      }
    }
  }

  lemma BatchHasGroup(a: Answers, batches: seq<Batch>, groups: Groups, uids: seq<string>, b: Batch)
    requires WellFormedGroups(groups) && Partitions(batches, Resolved(a, groups, uids)) && b in batches
    ensures b.ref in groups
  {
    hide WellFormedGroups, Lookup, Resolved;
    assert b.rules[0] in b.rules;
    var i := BatchRule(a, batches, groups, uids, b, b.rules[0]);
  }

  lemma UnreadAsExpected(a: Answers, q: Request, batches: seq<Batch>, groups: Groups, uids: seq<string>, b: Batch)
    requires WellFormedGroups(groups) && Partitions(batches, Resolved(a, groups, uids)) && b in batches
             && a.group(b.ref) != Accept
    ensures AsExpected(ResultsFor(a, q, b, groups), a, q, groups)
    ensures forall r | r in b.rules :: Mentions(ResultsFor(a, q, b, groups), r.uid)
  {
    hide WellFormedGroups, Partitions, Lookup, Resolved, GroupHeader;
    var results := ResultsFor(a, q, b, groups);
    forall k | 0 <= k < |results|
      ensures results[k] == Expected(a, q, groups, results[k].uid) && results[k].uid == b.rules[k].uid
    {
      assert b.rules[k] in b.rules;
      var i := BatchRule(a, batches, groups, uids, b, b.rules[k]);
    }
    forall r | r in b.rules ensures Mentions(results, r.uid) {
      var k :| 0 <= k < |b.rules| && b.rules[k] == r;
      assert results[k] in results;
    }
  }

  lemma ResultAsExpected(a: Answers, q: Request, batches: seq<Batch>, groups: Groups, uids: seq<string>, b: Batch,
                         y: OpResult)
    requires WellFormedGroups(groups) && Partitions(batches, Resolved(a, groups, uids)) && b in batches
    requires b.ref in groups && a.group(b.ref) == Accept && y in ResultsFor(a, q, b, groups)
    ensures y == Expected(a, q, groups, y.uid)
  {
    hide WellFormedGroups, WellFormedGroup, Partitions, Lookup, Resolved, Settled, Flips, WriteBody, Present,
      GroupHeader, FindRule, ResultsFor, FlipResult;
    var g := groups[b.ref];
    var body := Present(WriteBody(g, None).rules);
    BatchResults(a, q, b, groups, y);
    assert WellFormedGroup(g) && UniqueUIDs(body) by { WellFormedAt(groups, b.ref); }
    if y in Settled(b.rules, body, q.paused) {
      SettledMember(b.rules, body, q.paused, y);
      var r :| r in b.rules && SettledAs(r, body, q.paused, y);
      var i := BatchRule(a, batches, groups, uids, b, r);
      BodyRule(g, i);
    } else {
      var p :| p in Flips(b.rules, body, q.paused) && y == FlipResult(a, q, g, b.ref, body[p]);
      FlippedAsExpected(a, q, batches, groups, uids, b, p);
    }
  }

  lemma FlippedAsExpected(a: Answers, q: Request, batches: seq<Batch>, groups: Groups, uids: seq<string>, b: Batch,
                          p: nat)
    requires WellFormedGroups(groups) && Partitions(batches, Resolved(a, groups, uids)) && b in batches
    requires b.ref in groups && a.group(b.ref) == Accept
    requires p in Flips(b.rules, Present(WriteBody(groups[b.ref], None).rules), q.paused)
    ensures var y := FlipResult(a, q, groups[b.ref], b.ref, Present(WriteBody(groups[b.ref], None).rules)[p]);
            y == Expected(a, q, groups, y.uid)
  {
    hide WellFormedGroups, WellFormedGroup, Partitions, Lookup, Resolved, Flips, WriteBody, Present, GroupHeader,
      FindRule;
    var g := groups[b.ref];
    var body := Present(WriteBody(g, None).rules);
    assert WellFormedGroup(g) && UniqueUIDs(body) by { WellFormedAt(groups, b.ref); }
    FlipsMember(b.rules, body, q.paused, p);
    var r :| r in b.rules && r.uid == body[p].uid;
    var i := BatchRule(a, batches, groups, uids, b, r);
    BodyRule(g, i);
    PositionIsUnique(body, r.uid, p, i);
  }

  lemma WellFormedAt(groups: Groups, ref: GroupRef)
    requires WellFormedGroups(groups) && ref in groups
    ensures WellFormedGroup(groups[ref]) && UniqueUIDs(Present(WriteBody(groups[ref], None).rules))
  {
    GroupsAreUnique(groups, ref);
  }

  lemma RuleIsMentioned(a: Answers, q: Request, batches: seq<Batch>, groups: Groups, uids: seq<string>, b: Batch,
                        r: Rule)
    requires WellFormedGroups(groups) && Partitions(batches, Resolved(a, groups, uids)) && b in batches && r in b.rules
    requires b.ref in groups && a.group(b.ref) == Accept
    ensures Mentions(ResultsFor(a, q, b, groups), r.uid)
  {
    hide WellFormedGroups, WellFormedGroup, Partitions, Lookup, Resolved, Settled, Flips, WriteBody, Present,
      GroupHeader, FindRule, ResultsFor;
    var g := groups[b.ref];
    var body := Present(WriteBody(g, None).rules);
    assert WellFormedGroup(g) && UniqueUIDs(body) by { WellFormedAt(groups, b.ref); }
    var i := BatchRule(a, batches, groups, uids, b, r);
    BodyRule(g, i);
    if body[i].isPaused == q.paused {
      SettledMember(b.rules, body, q.paused, ResultFor(r));
      BatchResults(a, q, b, groups, ResultFor(r));
      assert ResultFor(r) in ResultsFor(a, q, b, groups);
    } else {
      FlipsMember(b.rules, body, q.paused, i);
      var y := FlipResult(a, q, g, b.ref, body[i]);
      BatchResults(a, q, b, groups, y);
      assert y in ResultsFor(a, q, b, groups) && y.uid == r.uid;
    }
  }

  lemma {:induction false} AllAsExpected(a: Answers, q: Request, batches: seq<Batch>, some: seq<Batch>, groups: Groups,
                                         uids: seq<string>)
    requires WellFormedGroups(groups) && Partitions(batches, Resolved(a, groups, uids))
             && forall b | b in some :: b in batches
    ensures AsExpected(AllResults(a, q, some, groups), a, q, groups)
    ensures forall b, r | b in some && r in b.rules :: Mentions(AllResults(a, q, some, groups), r.uid)
  {
    hide WellFormedGroups, Partitions, Resolved, ResultsFor, Expected;
    if some != [] {
      var front, last := some[..|some| - 1], some[|some| - 1];
      assert some == front + [last];
      AllAsExpected(a, q, batches, front, groups, uids);
      BatchAsExpected(a, q, batches, groups, uids, last);
      var before, own := AllResults(a, q, front, groups), ResultsFor(a, q, last, groups);
      forall b, r | b in some && r in b.rules ensures Mentions(before + own, r.uid) {
        if b in front {
          assert Mentions(before, r.uid);
          var y :| y in before && y.uid == r.uid;
          assert y in before + own;
        } else {
          assert Mentions(own, r.uid);
          var y :| y in own && y.uid == r.uid;
          assert y in before + own;
        }
      }
    }
  }

  lemma {:induction false} ReportedInOrder(order: seq<string>, outcome: map<string, OpResult>)
    requires forall uid | uid in order :: uid in outcome
    ensures Reported(order, outcome) == seq(|order|, i requires 0 <= i < |order| => outcome[order[i]])
  {
    if order != [] {
      assert order == order[..|order| - 1] + [order[|order| - 1]];
      ReportedInOrder(order[..|order| - 1], outcome);
    }
  }

  /** One result per distinct uid, in the order they were named, each the expected one. */
  lemma OneResultPerUID(a: Answers, q: Request, batches: seq<Batch>, groups: Groups, uids: seq<string>)
    requires WellFormedGroups(groups) && Partitions(batches, Resolved(a, groups, Dedupe(uids)))
    ensures var order, results := Dedupe(uids), Reported(Dedupe(uids), Outcomes(a, q, batches, groups, Dedupe(uids)));
            |results| == |order| && forall i | 0 <= i < |order| ::
              results[i] == Expected(a, q, groups, order[i]) && results[i].uid == order[i]
  {
    hide WellFormedGroups, Partitions, Resolved, Outcomes, Reported, Expected, Dedupe;
    var order, outcome := Dedupe(uids), Outcomes(a, q, batches, groups, Dedupe(uids));
    forall uid | uid in order
      ensures uid in outcome && outcome[uid] == Expected(a, q, groups, uid) && outcome[uid].uid == uid
    {
      OutcomeAsExpected(a, q, batches, groups, order, uid);
      ExpectedIsOfUID(a, q, groups, uid);
    }
    ReportedInOrder(order, outcome);
  }

  lemma ExpectedIsOfUID(a: Answers, q: Request, groups: Groups, uid: string)
    ensures Expected(a, q, groups, uid).uid == uid
  {
    hide Present, GroupHeader;
  }

  lemma OutcomeAsExpected(a: Answers, q: Request, batches: seq<Batch>, groups: Groups, order: seq<string>, uid: string)
    requires WellFormedGroups(groups) && Partitions(batches, Resolved(a, groups, order)) && uid in order
    ensures var outcome := Outcomes(a, q, batches, groups, order);
            uid in outcome && outcome[uid] == Expected(a, q, groups, uid)
  {
    hide WellFormedGroups, Partitions, Resolved, LookupResults, AllResults, Filed, Lookup, Expected;
    var x := Expected(a, q, groups, uid);
    var lookups, written := LookupResults(a, groups, order), AllResults(a, q, batches, groups);
    LookupsAsExpected(a, q, groups, order);
    AllAsExpected(a, q, batches, batches, groups, order);
    FiledAt(map[], lookups, uid, x);
    FiledAt(Filed(map[], lookups), written, uid, x);
    if a.rule(uid) == Accept && Lookup(groups, uid).Some? {
      assert Mentions(written, uid) by { ResolvedIsMentioned(a, q, batches, groups, order, uid); }
      var y :| y in written && y.uid == uid;
    } else {
      assert Mentions(lookups, uid);
      var y :| y in lookups && y.uid == uid;
    }
  }

  lemma ResolvedIsMentioned(a: Answers, q: Request, batches: seq<Batch>, groups: Groups, order: seq<string>,
                            uid: string)
    requires WellFormedGroups(groups) && Partitions(batches, Resolved(a, groups, order)) && uid in order
    requires a.rule(uid) == Accept && Lookup(groups, uid).Some?
    ensures Mentions(AllResults(a, q, batches, groups), uid)
  {
    hide WellFormedGroups, Resolved, AllResults, Lookup, RulesOf, Mentions;
    var r := Lookup(groups, uid).value;
    ResolvedMember(a, groups, order, r);
    var b :| b in batches && b.ref == RefOfRule(r);
    RulesOfMember(Resolved(a, groups, order), b.ref, r);
    AllAsExpected(a, q, batches, batches, groups, order);
  }

  // ---------------------------------------------------------------------------------------------
  // Running it again
  // ---------------------------------------------------------------------------------------------

  /** In every group the named rules are in the requested state already. */
  ghost predicate NothingToFlip(groups: Groups, uids: seq<string>, paused: bool) {
    forall ref | ref in groups :: !NeedsFlip(Present(groups[ref].rules), UIDsNamed(uids), paused)
  }

  lemma PausedNeedsNoFlip(before: Group, after: Group, uids: set<string>, paused: bool)
    requires GroupPaused(before, after, uids, paused)
    ensures !NeedsFlip(Present(after.rules), uids, paused)
  {
    hide Present;
    var b, c := Present(before.rules), Present(after.rules);
    forall r | r in c ensures r.uid in uids ==> r.isPaused == paused {
      var i :| 0 <= i < |c| && c[i] == r;
      assert OnlyPaused(b[i], c[i], b[i].uid in uids, paused);
    }
  }

  lemma {:induction false} KeysStay(a: Answers, q: Request, batches: seq<Batch>, groups: Groups)
    ensures AfterAll(a, q, batches, groups).Keys == groups.Keys
  {
    hide PauseWrite;
    if batches != [] {
      KeysStay(a, q, batches[..|batches| - 1], groups);
    }
  }

  /** In every group that refuses a write the named rules are in the requested state already. */
  ghost predicate RefusersSettled(groups: Groups, uids: seq<string>, paused: bool) {
    forall ref | ref in groups && !GroupHeader(Present(groups[ref].rules)).Send? ::
      !NeedsFlip(Present(groups[ref].rules), UIDsNamed(uids), paused)
  }

  /**
   After a run in which every answer was a success, nothing is left to flip exactly when no group that
   refuses the write held a named rule to flip.
   */
  lemma PausedMeansSettled(a: Answers, q: Request, batches: seq<Batch>, groups: Groups, uids: seq<string>)
    requires WellFormedGroups(groups) && AllAccepted(a) && !q.dryRun
    requires Partitions(batches, Resolved(a, groups, uids))
    ensures NothingToFlip(AfterAll(a, q, batches, groups), uids, q.paused) <==> RefusersSettled(groups, uids, q.paused)
  {
    hide WellFormedGroups, AllAccepted, Partitions, GroupPaused, NeedsFlip, AfterAll, GroupHeader, Present;
    PauseIsExact(a, q, batches, groups, uids);
    KeysStay(a, q, batches, groups);
    var after := AfterAll(a, q, batches, groups);
    forall ref | ref in after
      ensures if GroupHeader(Present(groups[ref].rules)).Send? then
              !NeedsFlip(Present(after[ref].rules), UIDsNamed(uids), q.paused)
              else after[ref] == groups[ref]
    {
      if GroupHeader(Present(groups[ref].rules)).Send? {
        PausedNeedsNoFlip(groups[ref], after[ref], UIDsNamed(uids), q.paused);
      }
    }
  }

  lemma {:induction false} RunKeepsWellFormed(a: Answers, q: Request, batches: seq<Batch>, groups: Groups)
    requires WellFormedGroups(groups)
    ensures WellFormedGroups(AfterAll(a, q, batches, groups))
  {
    hide WellFormedGroups, GroupsAfter;
    if batches != [] {
      var front, last := batches[..|batches| - 1], batches[|batches| - 1];
      RunKeepsWellFormed(a, q, front, groups);
      GroupsStayWellFormed(a, q, last, AfterAll(a, q, front, groups));
    }
  }

  /** Every group is settled or refuses a write. */
  ghost predicate NothingToWrite(groups: Groups, uids: seq<string>, paused: bool) {
    forall ref | ref in groups :: SettledOrRefusing(groups[ref], uids, paused)
  }

  predicate SettledOrRefusing(g: Group, uids: seq<string>, paused: bool) {
    GroupHeader(Present(g.rules)).Refuse? || !NeedsFlip(Present(g.rules), UIDsNamed(uids), paused)
  }

  lemma NothingToWriteAfter(a: Answers, q: Request, batches: seq<Batch>, groups: Groups, uids: seq<string>)
    requires WellFormedGroups(groups) && AllAccepted(a) && !q.dryRun
    requires Partitions(batches, Resolved(a, groups, uids))
    ensures NothingToWrite(AfterAll(a, q, batches, groups), uids, q.paused)
  {
    hide WellFormedGroups, AllAccepted, Partitions, GroupPaused, NeedsFlip, AfterAll, GroupHeader, Present;
    PauseIsExact(a, q, batches, groups, uids);
    KeysStay(a, q, batches, groups);
    var after := AfterAll(a, q, batches, groups);
    forall ref | ref in after ensures SettledOrRefusing(after[ref], uids, q.paused) {
      if GroupHeader(Present(groups[ref].rules)).Send? {
        PausedNeedsNoFlip(groups[ref], after[ref], UIDsNamed(uids), q.paused);
      }
    }
  }

  lemma NoPutWhenSettled(b: Answers, q: Request, batch: Batch, groups: Groups, uids: seq<string>)
    requires NothingToWrite(groups, uids, q.paused) && UIDSet(batch.rules) <= UIDsNamed(uids)
    ensures PutFor(b, q, batch, groups).None?
  {
    hide GroupHeader, Present, WriteBody;
    if batch.ref in groups {
      var g := groups[batch.ref];
      FlipOfBody(g, UIDSet(batch.rules), q.paused);
      assert SettledOrRefusing(g, uids, q.paused);
      assert GroupHeader(Present(g.rules)).Refuse? || !NeedsFlip(Present(g.rules), UIDSet(batch.rules), q.paused);
    }
  }

  lemma {:induction false} NoPutsWhenSettled(b: Answers, q: Request, batches: seq<Batch>, groups: Groups,
                                             uids: seq<string>)
    requires NothingToWrite(groups, uids, q.paused)
             && forall batch | batch in batches :: UIDSet(batch.rules) <= UIDsNamed(uids)
    ensures PutsFor(b, q, batches, groups) == []
  {
    hide NothingToWrite, PutFor, UIDSet;
    if batches != [] {
      assert batches[|batches| - 1] in batches;
      NoPutWhenSettled(b, q, batches[|batches| - 1], groups, uids);
      NoPutsWhenSettled(b, q, batches[..|batches| - 1], groups, uids);
    }
  }

  /** The batches of a run name no other rules. */
  lemma BatchesNameOnly(b: Answers, q: Request, groups: Groups, uids: seq<string>)
    ensures forall batch | batch in RunReached(b, q, groups, uids) :: UIDSet(batch.rules) <= UIDsNamed(Dedupe(uids))
  {
    hide Resolved, Lookup, RulesOf, BatchesOf, Dead, Reached, Dedupe;
    var order, batches := Dedupe(uids), RunBatches(b, groups, uids);
    BatchesPartition(Resolved(b, groups, order));
    forall batch | batch in RunReached(b, q, groups, uids) ensures UIDSet(batch.rules) <= UIDsNamed(order) {
      assert batch in batches;
      forall r | r in batch.rules ensures r.uid in order {
        RulesOfMember(Resolved(b, groups, order), batch.ref, r);
        ResolvedMember(b, groups, order, r);
      }
    }
  }

  lemma {:induction false} LookupsAlive(a: Answers, groups: Groups, uids: seq<string>)
    requires AllAccepted(a)
    ensures !Dead(LookupResults(a, groups, uids))
  {
    hide Lookup;
    if uids != [] {
      LookupsAlive(a, groups, uids[..|uids| - 1]);
    }
  }

  lemma BatchAlive(a: Answers, q: Request, batch: Batch, groups: Groups)
    requires AllAccepted(a)
    ensures !Dead(ResultsFor(a, q, batch, groups))
  {
    hide Dead, Settled, Flips, WriteBody, Present, GroupHeader, At, FailAll, ChangeAll;
    FailAllDead(batch.rules, NotFound);
    if batch.ref in groups {
      var g := groups[batch.ref];
      var rules := Present(WriteBody(g, None).rules);
      var named, header := At(rules, Flips(batch.rules, rules, q.paused)), GroupHeader(Present(g.rules));
      SettledAlive(batch.rules, rules, q.paused);
      ChangeAllAlive(named);
      DeadConcat(Settled(batch.rules, rules, q.paused), ChangeAll(named));
      if header.Refuse? {
        FailAllDead(named, Refused(header.failure));
        DeadConcat(Settled(batch.rules, rules, q.paused), FailAll(named, Refused(header.failure)));
      }
    }
  }

  lemma {:induction false} BatchesAlive(a: Answers, q: Request, batches: seq<Batch>, groups: Groups)
    requires AllAccepted(a)
    ensures !Dead(AllResults(a, q, batches, groups))
  {
    hide ResultsFor, Dead, AllAccepted;
    if batches == [] {
      NothingDead();
    } else {
      BatchesAlive(a, q, batches[..|batches| - 1], groups);
      BatchAlive(a, q, batches[|batches| - 1], groups);
      DeadConcat(AllResults(a, q, batches[..|batches| - 1], groups), ResultsFor(a, q, batches[|batches| - 1], groups));
    }
  }

  lemma AcceptedRunLives(a: Answers, q: Request, groups: Groups, uids: seq<string>)
    requires AllAccepted(a)
    ensures !Dead(RunResults(a, q, groups, uids))
  {
    hide Dead, LookupResults, AllResults, AllAccepted, Dedupe;
    LookupsAlive(a, groups, Dedupe(uids));
    BatchesAlive(a, q, RunBatches(a, groups, uids), groups);
    DeadConcat(LookupResults(a, groups, Dedupe(uids)), AllResults(a, q, RunBatches(a, groups, uids), groups));
  }

  /** What the second run reports of a named uid, in terms of what Grafana held before the first. */
  ghost function SecondResult(groups: Groups, paused: bool, uid: string): OpResult {
    if Lookup(groups, uid).None? then OpResult(uid, "", "", false, Some(NotFound))
    else
      var r := Lookup(groups, uid).value;
      var ref := RefOfRule(r);
      var header := if ref in groups then GroupHeader(Present(groups[ref].rules)) else Send(true);
      if header.Refuse? && r.isPaused != paused then FailureFor(r, Refused(header.failure)) else ResultFor(r)
  }

  lemma RulePaused(before: Group, after: Group, uids: set<string>, paused: bool, i: nat)
    requires GroupPaused(before, after, uids, paused) && i < |Present(before.rules)|
    ensures |Present(after.rules)| == |Present(before.rules)|
    ensures OnlyPaused(Present(before.rules)[i], Present(after.rules)[i], Present(before.rules)[i].uid in uids, paused)
  {
    hide Present, OnlyPaused;
  }

  /** A named rule that exists is found again, the same but for its state and its stamps. */
  lemma FoundAgain(a: Answers, q: Request, batches: seq<Batch>, groups: Groups, uids: seq<string>, uid: string)
    requires WellFormedGroups(groups) && AllAccepted(a) && !q.dryRun && uid in uids
    requires Partitions(batches, Resolved(a, groups, uids)) && Lookup(groups, uid).Some?
    ensures var after, r := AfterAll(a, q, batches, groups), Lookup(groups, uid).value;
            && Lookup(after, uid).Some?
            && var s, ref := Lookup(after, uid).value, RefOfRule(r);
               && ref in groups && ref in after && RefOfRule(s) == ref && ResultFor(s) == ResultFor(r)
               && if GroupHeader(Present(groups[ref].rules)).Send? then s.isPaused == q.paused
                  else s == r && after[ref] == groups[ref]
  {
    hide WellFormedGroups, AllAccepted, Partitions, GroupPaused, AfterAll, GroupHeader, Present, Lookup, Resolved;
    var after, r := AfterAll(a, q, batches, groups), Lookup(groups, uid).value;
    PauseIsExact(a, q, batches, groups, uids);
    RunKeepsWellFormed(a, q, batches, groups);
    LookedUpRule(groups, uid);
    var ref := RefOfRule(r);
    var i :| 0 <= i < |Present(groups[ref].rules)| && Present(groups[ref].rules)[i] == r;
    if GroupHeader(Present(groups[ref].rules)).Send? {
      RulePaused(groups[ref], after[ref], UIDsNamed(uids), q.paused, i);
    }
    HeldRule(after, ref, i);
  }

  lemma NotFoundAgain(a: Answers, q: Request, batches: seq<Batch>, groups: Groups, uids: seq<string>, uid: string)
    requires WellFormedGroups(groups) && AllAccepted(a) && !q.dryRun
    requires Partitions(batches, Resolved(a, groups, uids)) && Lookup(groups, uid).None?
    ensures Lookup(AfterAll(a, q, batches, groups), uid).None?
  {
    hide AllAccepted, Partitions, GroupPaused, AfterAll, GroupHeader, Present, Resolved, Holds, WellFormedGroup;
    var after := AfterAll(a, q, batches, groups);
    PauseIsExact(a, q, batches, groups, uids);
    KeysStay(a, q, batches, groups);
    forall ref | ref in after ensures !Holds(after[ref], uid) {
      assert !Holds(groups[ref], uid);
      if GroupHeader(Present(groups[ref].rules)).Send? {
        PausedStaysWellFormed(groups[ref], after[ref], UIDsNamed(uids), q.paused);
      }
    }
  }

  lemma ExpectedAgain(a: Answers, b: Answers, q: Request, again: Request, batches: seq<Batch>, groups: Groups,
                      uids: seq<string>, uid: string)
    requires WellFormedGroups(groups) && AllAccepted(a) && !q.dryRun && AllAccepted(b) && again.paused == q.paused
    requires Partitions(batches, Resolved(a, groups, uids)) && uid in uids
    ensures Expected(b, again, AfterAll(a, q, batches, groups), uid) == SecondResult(groups, q.paused, uid)
  {
    hide WellFormedGroups, Partitions, AfterAll, GroupHeader, Present, Lookup, Resolved;
    if Lookup(groups, uid).Some? {
      FoundAgain(a, q, batches, groups, uids, uid);
    } else {
      NotFoundAgain(a, q, batches, groups, uids, uid);
    }
  }

  /** What a run that the session survives reports: one result per distinct uid, in the order they were named. */
  lemma LiveRunReports(a: Answers, q: Request, groups: Groups, uids: seq<string>)
    requires WellFormedGroups(groups) && !Dead(RunResults(a, q, groups, uids))
    ensures Reported(Dedupe(uids), Filed(map[], UpToDead(RunResults(a, q, groups, uids)))) ==
            seq(|Dedupe(uids)|, i requires 0 <= i < |Dedupe(uids)| => Expected(a, q, groups, Dedupe(uids)[i]))
  {
    hide WellFormedGroups, Expected, RunResults, RunBatches, RunReached, Reported, Filed, UpToDead, Dead, Outcomes,
      Dedupe, Partitions;
    LiveRunIsWhole(a, q, groups, uids);
    OneResultPerUID(a, q, RunBatches(a, groups, uids), groups, uids);
  }

  /**
   Two runs in a row: after one whose every answer was a success the same run again makes no write,
   whatever Grafana answers, and when it answers it reports every named rule that exists as unchanged, but
   for those to flip in a group that refuses the write, which are refused again.
   */
  lemma SecondRunChangesNothing(a: Answers, b: Answers, q: Request, again: Request, groups: Groups, uids: seq<string>)
    requires WellFormedGroups(groups) && AllAccepted(a) && !q.dryRun && again.paused == q.paused
    ensures var after := AfterAll(a, q, RunReached(a, q, groups, uids), groups);
            && WellFormedGroups(after)
            && PutsFor(b, again, RunReached(b, again, after, uids), after) == []
            && (AllAccepted(b) ==>
                  Reported(Dedupe(uids), Filed(map[], UpToDead(RunResults(b, again, after, uids)))) ==
                  seq(|Dedupe(uids)|, i requires 0 <= i < |Dedupe(uids)| =>
                    SecondResult(groups, q.paused, Dedupe(uids)[i])))
  {
    hide WellFormedGroups, AllAccepted, Expected, RunResults, RunBatches, RunReached, Reported, Filed, UpToDead,
      Dead, Outcomes, Dedupe, Partitions, Resolved, AfterAll, PutsFor, NothingToWrite, SecondResult, UIDsNamed, UIDSet;
    var order, batches := Dedupe(uids), RunReached(a, q, groups, uids);
    var after := AfterAll(a, q, batches, groups);
    AcceptedRunLives(a, q, groups, uids);
    LiveRunIsWhole(a, q, groups, uids);
    RunKeepsWellFormed(a, q, batches, groups);
    NothingToWriteAfter(a, q, batches, groups, order);
    BatchesNameOnly(b, again, after, uids);
    NoPutsWhenSettled(b, again, RunReached(b, again, after, uids), after, order);
    if AllAccepted(b) {
      AcceptedRunLives(b, again, after, uids);
      LiveRunReports(b, again, after, uids);
      forall i | 0 <= i < |order|
        ensures Expected(b, again, after, order[i]) == SecondResult(groups, q.paused, order[i])
      {
        ExpectedAgain(a, b, q, again, batches, groups, order, order[i]);
      }
    }
  }
}
