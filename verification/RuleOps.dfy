/**
 Pausing and resuming rules: the named rules are looked up, grouped by the rule group they live in, and
 each group is written at most once with the named rules flipped.
 */
module RuleOps {
  import opened Options
  import opened AlertModels
  import opened GroupPlan
  import opened PushRuns
  import opened ScopedPushTheorems
  import opened Sequences

  // ---------------------------------------------------------------------------------------------
  // Grafana
  // ---------------------------------------------------------------------------------------------

  type Groups = map<GroupRef, Group>

  datatype Stamp = Stamp(id: int, updated: string, provenance: string)

  /** One write of a rule group. */
  datatype GroupPut = GroupPut(ref: GroupRef, body: Group, unclaimed: bool)

  /** Groups as Grafana keeps them: each under its own folder and title, each uid one rule of the instance. */
  ghost predicate WellFormedGroups(groups: Groups) {
    && (forall ref | ref in groups :: RefOf(groups[ref]) == ref && WellFormedGroup(groups[ref]))
    && (forall a, b, uid | a in groups && b in groups && Holds(groups[a], uid) && Holds(groups[b], uid) :: a == b)
  }

  function RefOfRule(r: Rule): GroupRef {
    GroupRef(if r.folderUID.Some? then r.folderUID.value else "", if r.ruleGroup.Some? then r.ruleGroup.value else "")
  }

  /** How Grafana answers: a rule read, a group read, a group write, and the stamp it puts on a stored rule. */
  datatype Answers = Answers(rule: string -> Answer, group: GroupRef -> Answer, put: GroupRef -> Answer,
                             stamp: Rule -> Stamp)

  /** The server: its rule groups, the writes it received, and what it answers. */
  class Grafana {
    var groups: Groups
    var puts: seq<GroupPut>
    const answers: Answers

    constructor (groups: Groups, answers: Answers)
      ensures this.groups == groups && puts == [] && this.answers == answers
    {
      this.groups, puts, this.answers := groups, [], answers;
    }

    /** The rule of that uid, wherever it is; an empty uid names none. */
    method Rule(uid: string) returns (found: Option<Rule>)
      ensures found.None? <==> forall ref | ref in groups :: !Holds(groups[ref], uid)
      ensures found.Some? ==> exists ref :: ref in groups && FindRule(Present(groups[ref].rules), uid) == found
    {
      hide FindRule, Present;
      var left := groups.Keys;
      while left != {}
        invariant left <= groups.Keys
        invariant forall ref | ref in groups && ref !in left :: !Holds(groups[ref], uid)
        decreases |left|
      {
        var ref :| ref in left;
        found := FindRule(Present(groups[ref].rules), uid);
        if found.Some? {
          return;
        }
        left := left - {ref};
      }
      return None;
    }

    /** Looks a rule up, or says why there is none: an empty uid is never asked for. */
    method Fetch(uid: string) returns (found: Option<AlertModels.Rule>, failure: OpFailure)
      requires WellFormedGroups(groups)
      ensures LookupFailure(answers, groups, uid) == if found.None? then Some(failure) else None
      ensures found.Some? ==> found == Lookup(groups, uid)
    {
      hide WellFormedGroups;
      LookupOfNothing(groups);
      found, failure := None, NotFound;
      if uid != "" {
        var answer := answers.rule(uid);
        if answer != Accept {
          failure := NotOK(answer, LookupFailed);
        } else {
          found := Rule(uid);
          FoundByLookup(groups, uid, found);
        }
      }
    }

    /** A PUT replaces the group with the body and stamps its rules. */
    method Put(p: GroupPut) returns (answer: Answer)
      modifies this`groups, this`puts
      ensures puts == old(puts) + [p] && answer == answers.put(p.ref)
      ensures groups == if answer == Accept then old(groups)[p.ref := Stamped(answers.stamp, p.body)] else old(groups)
    {
      puts := puts + [p];
      answer := answers.put(p.ref);
      if answer == Accept {
        groups := groups[p.ref := Stamped(answers.stamp, p.body)];
      }
    }
  }

  function StampRule(stamp: Rule -> Stamp, r: Rule): Rule {
    r.(id := stamp(r).id, updated := stamp(r).updated, provenance := stamp(r).provenance)
  }

  function Stamped(stamp: Rule -> Stamp, body: Group): Group {
    var rules := Present(body.rules);
    body.(rules := Wrap(seq(|rules|, i requires 0 <= i < |rules| => StampRule(stamp, rules[i]))))
  }

  // ---------------------------------------------------------------------------------------------
  // Outcomes
  // ---------------------------------------------------------------------------------------------

  datatype OpFailure = LookupFailed | NotFound | GroupUnread | NoLongerHeld | Refused(failure: Failure) | WriteFailed
    | SessionDead

  datatype OpResult = OpResult(uid: string, title: string, group: string, changed: bool, failure: Option<OpFailure>)

  function ResultFor(r: Rule): OpResult {
    OpResult(r.uid, TitleText(r), if r.ruleGroup.Some? then r.ruleGroup.value else "", false, None)
  }

  function FailureFor(r: Rule, f: OpFailure): OpResult {
    ResultFor(r).(failure := Some(f))
  }

  function NotOK(a: Answer, otherwise: OpFailure): OpFailure {
    if a == DeadSession then SessionDead else otherwise
  }

  // ---------------------------------------------------------------------------------------------
  // Deduplication and batches
  // ---------------------------------------------------------------------------------------------

  method DedupeUIDs(uids: seq<string>) returns (deduped: seq<string>)
    ensures deduped == Dedupe(uids)
  {
    deduped := [];
    var seen: set<string> := {};
    for i := 0 to |uids|
      invariant deduped == Dedupe(uids[..i])
      invariant forall u :: u in seen <==> u in deduped
    {
      assert uids[..i + 1] == uids[..i] + [uids[i]];
      DedupeSnoc(uids[..i], uids[i]);
      if uids[i] !in seen {
        seen := seen + {uids[i]};
        deduped := deduped + [uids[i]];
      }
    }
    assert uids[..|uids|] == uids;
  }

  /** One rule group with the rules of it the run was asked to change. */
  datatype Batch = Batch(ref: GroupRef, rules: seq<Rule>)

  /** The rules of one group, in order. */
  function RulesOf(rules: seq<Rule>, ref: GroupRef): seq<Rule> {
    if rules == [] then []
    else RulesOf(rules[..|rules| - 1], ref) + if RefOfRule(rules[|rules| - 1]) == ref then [rules[|rules| - 1]] else []
  }

  /** The batches partition the rules by group: a group is in one batch, with all its rules in order. */
  ghost predicate Partitions(batches: seq<Batch>, rules: seq<Rule>) {
    && (forall i, j | 0 <= i < j < |batches| :: batches[i].ref != batches[j].ref)
    && (forall b | b in batches :: b.rules == RulesOf(rules, b.ref) && b.rules != [])
    && (forall r | r in rules :: exists b :: b in batches && b.ref == RefOfRule(r))
  }

  function RefsOf(rules: seq<Rule>): seq<GroupRef> {
    seq(|rules|, i requires 0 <= i < |rules| => RefOfRule(rules[i]))
  }

  /** One batch for each group, in the order the groups first occur. */
  function BatchesOf(rules: seq<Rule>): seq<Batch> {
    var refs := Dedupe(RefsOf(rules));
    seq(|refs|, i requires 0 <= i < |refs| => Batch(refs[i], RulesOf(rules, refs[i])))
  }

  lemma BatchesPartition(rules: seq<Rule>)
    ensures Partitions(BatchesOf(rules), rules)
  {
    hide RefOfRule, RulesOf;
    var refs, batches := Dedupe(RefsOf(rules)), BatchesOf(rules);
    forall b | b in batches ensures b.rules == RulesOf(rules, b.ref) && b.rules != [] {
      var i :| 0 <= i < |batches| && batches[i] == b;
      assert refs[i] in refs;
      var k :| 0 <= k < |rules| && RefsOf(rules)[k] == refs[i];
      RulesOfMember(rules, b.ref, rules[k]);
    }
    forall r | r in rules ensures exists b :: b in batches && b.ref == RefOfRule(r) {
      var k :| 0 <= k < |rules| && rules[k] == r;
      assert RefsOf(rules)[k] in refs;
      var i :| 0 <= i < |refs| && refs[i] == RefOfRule(r);
      assert batches[i] in batches;
    }
  }

  lemma RulesOfSnoc(rules: seq<Rule>, r: Rule, ref: GroupRef)
    ensures RulesOf(rules + [r], ref) == if RefOfRule(r) == ref then RulesOf(rules, ref) + [r] else RulesOf(rules, ref)
  {
    assert (rules + [r])[..|rules|] == rules;
  }

  /** index finds the batch of each group seen so far. */
  ghost predicate Indexes(index: map<GroupRef, nat>, batches: seq<Batch>) {
    && (forall ref | ref in index :: index[ref] < |batches| && batches[index[ref]].ref == ref)
    && (forall k | 0 <= k < |batches| :: batches[k].ref in index && index[batches[k].ref] == k)
  }

  /** Each batch holds its group's rules, and a group without a batch has none. */
  ghost predicate Grouped(index: map<GroupRef, nat>, batches: seq<Batch>, rules: seq<Rule>) {
    && (forall k | 0 <= k < |batches| :: batches[k].rules == RulesOf(rules, batches[k].ref))
    && (forall ref | ref !in index :: RulesOf(rules, ref) == [])
  }

  lemma BatchAdded(index: map<GroupRef, nat>, batches: seq<Batch>, rules: seq<Rule>, ref: GroupRef)
    requires Indexes(index, batches) && Grouped(index, batches, rules) && ref !in index
    ensures Indexes(index[ref := |batches|], batches + [Batch(ref, [])])
            && Grouped(index[ref := |batches|], batches + [Batch(ref, [])], rules)
  {
    hide RulesOf;
  }

  lemma RuleAdded(index: map<GroupRef, nat>, batches: seq<Batch>, rules: seq<Rule>, rule: Rule)
    requires Indexes(index, batches) && Grouped(index, batches, rules) && RefOfRule(rule) in index
    ensures var at := index[RefOfRule(rule)];
            var after := batches[at := batches[at].(rules := batches[at].rules + [rule])];
            Indexes(index, after) && Grouped(index, after, rules + [rule])
  {
    hide RulesOf, RefOfRule;
    var ref := RefOfRule(rule);
    forall other
      ensures RulesOf(rules + [rule], other) ==
              if ref == other then RulesOf(rules, other) + [rule] else RulesOf(rules, other)
    {
      RulesOfSnoc(rules, rule, other);
    }
  }

  lemma {:induction false} RulesOfMember(rules: seq<Rule>, ref: GroupRef, r: Rule)
    ensures r in RulesOf(rules, ref) <==> r in rules && RefOfRule(r) == ref
  {
    hide RefOfRule;
    if rules != [] {
      RulesOfMember(rules[..|rules| - 1], ref, r);
      assert rules == rules[..|rules| - 1] + [rules[|rules| - 1]];
    }
  }

  /** The batches of the rules seen so far, and where each group's is. */
  ghost predicate Batched(index: map<GroupRef, nat>, batches: seq<Batch>, rules: seq<Rule>) {
    Indexes(index, batches) && Grouped(index, batches, rules) && BatchRefs(batches) == Dedupe(RefsOf(rules))
  }

  method GroupBatches(rules: seq<Rule>) returns (batches: seq<Batch>)
    ensures batches == BatchesOf(rules)
  {
    batches := [];
    var index: map<GroupRef, nat> := map[];
    for i := 0 to |rules|
      invariant Batched(index, batches, rules[..i])
    {
      var rule := rules[i];
      var ref := RefOfRule(rule);
      hide *;
      assert rules[..i + 1] == rules[..i] + [rule];
      BatchForGroup(index, batches, rules[..i], rule);
      if ref !in index {
        index := index[ref := |batches|];
        batches := batches + [Batch(ref, [])];
      }
      var at := index[ref];
      batches := batches[at := batches[at].(rules := batches[at].rules + [rule])];
    }
    assert rules[..|rules|] == rules;
    AllBatched(index, batches, rules);
  }

  lemma AllBatched(index: map<GroupRef, nat>, batches: seq<Batch>, rules: seq<Rule>)
    requires Batched(index, batches, rules)
    ensures batches == BatchesOf(rules)
  {
    hide RulesOf, RefsOf, Dedupe;
    assert |BatchRefs(batches)| == |batches|;
    forall k | 0 <= k < |batches| ensures batches[k] == BatchesOf(rules)[k] {
      assert batches[k].ref == BatchRefs(batches)[k];
    }
  }

  /** The step of the loop: the rule goes to the batch of its group, a new one when there is none. */
  lemma BatchForGroup(index: map<GroupRef, nat>, batches: seq<Batch>, rules: seq<Rule>, rule: Rule)
    requires Batched(index, batches, rules)
    ensures var ref := RefOfRule(rule);
            var found := if ref in index then index else index[ref := |batches|];
            var all := if ref in index then batches else batches + [Batch(ref, [])];
            && ref in found && found[ref] < |all|
            && Batched(found, all[found[ref] := all[found[ref]].(rules := all[found[ref]].rules + [rule])],
                       rules + [rule])
  {
    hide RefOfRule, Grouped, RefsOf, Dedupe, RulesOf;
    var ref := RefOfRule(rule);
    var found := if ref in index then index else index[ref := |batches|];
    var all := if ref in index then batches else batches + [Batch(ref, [])];
    RefsSnoc(index, batches, rules, rule);
    if ref !in index {
      BatchAdded(index, batches, rules, ref);
    }
    RuleAdded(found, all, rules, rule);
    assert BatchRefs(all[found[ref] := all[found[ref]].(rules := all[found[ref]].rules + [rule])]) == BatchRefs(all);
    assert ref !in index ==> BatchRefs(all) == BatchRefs(batches) + [ref];
  }

  function BatchRefs(batches: seq<Batch>): seq<GroupRef> {
    seq(|batches|, k requires 0 <= k < |batches| => batches[k].ref)
  }

  lemma RefsSnoc(index: map<GroupRef, nat>, batches: seq<Batch>, rules: seq<Rule>, rule: Rule)
    requires Indexes(index, batches) && BatchRefs(batches) == Dedupe(RefsOf(rules))
    ensures Dedupe(RefsOf(rules + [rule])) ==
            if RefOfRule(rule) in index then BatchRefs(batches) else BatchRefs(batches) + [RefOfRule(rule)]
  {
    hide RefOfRule, Dedupe;
    var ref := RefOfRule(rule);
    assert RefsOf(rules + [rule]) == RefsOf(rules) + [ref];
    DedupeSnoc(RefsOf(rules), ref);
    if ref in index {
      assert BatchRefs(batches)[index[ref]] == ref;
    }
    if ref in BatchRefs(batches) {
      var k :| 0 <= k < |batches| && BatchRefs(batches)[k] == ref;
    }
  }

  // ---------------------------------------------------------------------------------------------
  // One group
  // ---------------------------------------------------------------------------------------------

  /** The rules with those of the uids put in the requested state. */
  function SetPaused(rules: seq<Rule>, uids: set<string>, paused: bool): seq<Rule> {
    seq(|rules|, i requires 0 <= i < |rules| =>
      if rules[i].uid in uids then rules[i].(isPaused := paused) else rules[i])
  }

  function UIDSet(rules: seq<Rule>): set<string> {
    set r | r in rules :: r.uid
  }

  /** Some rule of those uids is not in the requested state. */
  predicate NeedsFlip(rules: seq<Rule>, uids: set<string>, paused: bool) {
    exists r :: r in rules && r.uid in uids && r.isPaused != paused
  }

  /** The position of the rule carrying uid. */
  function PositionOf(rules: seq<Rule>, uid: string): (p: Option<nat>)
    ensures p.Some? ==> p.value < |rules| && FindRule(rules, uid) == Some(rules[p.value])
    ensures p.None? <==> FindRule(rules, uid).None?
  {
    if uid == "" || rules == [] then None
    else if rules[0].uid == uid then Some(0)
    else var p := PositionOf(rules[1..], uid); if p.None? then None else Some(p.value + 1)
  }

  /** Where the body holds the rule, when its state is not the requested one. */
  function FlipOf(r: Rule, body: seq<Rule>, paused: bool): (at: Option<nat>)
    ensures at.Some? ==> at.value < |body| && body[at.value].isPaused != paused && body[at.value].uid == r.uid
  {
    var at := PositionOf(body, r.uid);
    if at.Some? && body[at.value].isPaused != paused then at else None
  }

  /** The result of a named rule that is not flipped. */
  function SettledOf(r: Rule, body: seq<Rule>, paused: bool): seq<OpResult> {
    var current := FindRule(body, r.uid);
    if current.None? then [FailureFor(r, NoLongerHeld)] else if current.value.isPaused == paused then [ResultFor(r)]
    else []
  }

  /** The positions a pause or resume flips, in the order the rules are named. */
  function Flips(named: seq<Rule>, body: seq<Rule>, paused: bool): (flips: seq<nat>)
    ensures forall p | p in flips :: p < |body| && body[p].isPaused != paused
  {
    if named == [] then []
    else
      var at := FlipOf(named[|named| - 1], body, paused);
      Flips(named[..|named| - 1], body, paused) + if at.Some? then [at.value] else []
  }

  /** The results of the named rules that are not flipped. */
  function Settled(named: seq<Rule>, body: seq<Rule>, paused: bool): seq<OpResult> {
    if named == [] then []
    else Settled(named[..|named| - 1], body, paused) + SettledOf(named[|named| - 1], body, paused)
  }

  lemma FlipsSnoc(named: seq<Rule>, r: Rule, body: seq<Rule>, paused: bool)
    ensures var at := FlipOf(r, body, paused);
            Flips(named + [r], body, paused) ==
              if at.Some? then Flips(named, body, paused) + [at.value] else Flips(named, body, paused)
    ensures Settled(named + [r], body, paused) == Settled(named, body, paused) + SettledOf(r, body, paused)
  {
    hide FlipOf, SettledOf;
    assert (named + [r])[..|named|] == named;
  }

  /** The outcomes with the results filed under their uids, in order. */
  function Filed(outcome: map<string, OpResult>, results: seq<OpResult>): map<string, OpResult> {
    if results == [] then outcome
    else Filed(outcome, results[..|results| - 1])[results[|results| - 1].uid := results[|results| - 1]]
  }

  lemma TargetsStep(start: map<string, OpResult>, named: seq<Rule>, i: nat, body: seq<Rule>, paused: bool)
    requires i < |named|
    ensures var at := FlipOf(named[i], body, paused);
            Flips(named[..i + 1], body, paused) ==
            if at.Some? then Flips(named[..i], body, paused) + [at.value] else Flips(named[..i], body, paused)
    ensures Filed(start, Settled(named[..i + 1], body, paused)) ==
            Filed(Filed(start, Settled(named[..i], body, paused)), SettledOf(named[i], body, paused))
  {
    hide Filed, Flips, Settled, FlipOf, SettledOf;
    assert named[..i + 1] == named[..i] + [named[i]];
    FlipsSnoc(named[..i], named[i], body, paused);
    FiledTwice(start, Settled(named[..i], body, paused), SettledOf(named[i], body, paused));
  }

  lemma FailureIs(r: Rule, f: OpFailure)
    ensures FailureFor(r, f).failure == Some(f)
  {
  }

  lemma FiledOne(outcome: map<string, OpResult>, result: OpResult)
    ensures Filed(outcome, [result]) == outcome[result.uid := result] && Filed(outcome, []) == outcome
  {
    assert Filed(outcome, []) == outcome;
  }

  lemma FiledSnoc(outcome: map<string, OpResult>, results: seq<OpResult>, last: OpResult)
    ensures Filed(outcome, results + [last]) == Filed(outcome, results)[last.uid := last]
  {
    assert (results + [last])[..|results|] == results;
  }

  /** The session was found dead. */
  predicate SaysDead(result: OpResult) {
    result.failure == Some(SessionDead)
  }

  predicate Dead(results: seq<OpResult>) {
    exists r :: r in results && SaysDead(r)
  }

  /** The results up to the first that says so: nothing is filed after it. */
  function UpToDead(results: seq<OpResult>): seq<OpResult> {
    if results == [] then []
    else if Dead(results[..|results| - 1]) then UpToDead(results[..|results| - 1])
    else UpToDead(results[..|results| - 1]) + [results[|results| - 1]]
  }

  lemma DeadConcat(a: seq<OpResult>, b: seq<OpResult>)
    ensures Dead(a + b) <==> Dead(a) || Dead(b)
  {
    if r :| r in a && SaysDead(r) {
      assert r in a + b;
    }
    if r :| r in b && SaysDead(r) {
      assert r in a + b;
    }
  }

  lemma {:induction false} UpToDeadConcat(a: seq<OpResult>, b: seq<OpResult>)
    ensures UpToDead(a + b) == if Dead(a) then UpToDead(a) else a + UpToDead(b)
    decreases |a| + |b|
  {
    hide Dead;
    if b == [] {
      assert a + b == a;
      if a != [] {
        var front, last := a[..|a| - 1], a[|a| - 1];
        assert front + [last] == a && front + [] == front;
        DeadConcat(front, [last]);
        UpToDeadConcat(front, []);
      }
    } else {
      var front, last := b[..|b| - 1], b[|b| - 1];
      assert (a + b)[..|a + b| - 1] == a + front && (a + b)[|a + b| - 1] == last;
      UpToDeadConcat(a, front);
      DeadConcat(a, front);
    }
  }

  lemma DeadOne(r: OpResult)
    ensures !Dead([]) && (Dead([r]) <==> SaysDead(r))
  {
    assert r in [r];
  }

  /** One more result files it, unless the session was found dead before. */
  lemma UpToDeadSnoc(results: seq<OpResult>, last: OpResult)
    ensures UpToDead(results + [last]) == if Dead(results) then UpToDead(results) else results + [last]
    ensures Dead(results + [last]) <==> Dead(results) || SaysDead(last)
  {
    hide Dead, SaysDead;
    DeadOne(last);
    UpToDeadConcat(results, []);
    DeadConcat(results, [last]);
    assert results + [] == results && (results + [last])[..|results|] == results;
  }

  lemma NothingDead()
    ensures !Dead([]) && UpToDead([]) == []
  {
  }

  /** Results none of which says so are filed whole. */
  lemma AliveIsWhole(results: seq<OpResult>)
    ensures !Dead(results) ==> UpToDead(results) == results
  {
    hide Dead;
    UpToDeadConcat(results, []);
    assert results + [] == results;
  }

  /** Each rule with the same outcome. */
  function FailAll(rules: seq<Rule>, f: OpFailure): seq<OpResult> {
    seq(|rules|, i requires 0 <= i < |rules| => FailureFor(rules[i], f))
  }

  function ChangeAll(rules: seq<Rule>): seq<OpResult> {
    seq(|rules|, i requires 0 <= i < |rules| => ResultFor(rules[i]).(changed := true))
  }

  function At(rules: seq<Rule>, positions: seq<nat>): seq<Rule>
    requires forall p | p in positions :: p < |rules|
  {
    seq(|positions|, i requires 0 <= i < |positions| => assert positions[i] in positions; rules[positions[i]])
  }

  /** What a pause of the named rules of one group would send, or nothing when it sends nothing. */
  function PauseWrite(g: Group, uids: set<string>, paused: bool): Option<GroupPut> {
    var body := WriteBody(g, None);
    var rules := Present(body.rules);
    var header := GroupHeader(Present(g.rules));
    if !NeedsFlip(rules, uids, paused) || header.Refuse? then None
    else Some(GroupPut(RefOf(g), body.(rules := Wrap(SetPaused(rules, uids, paused))), header.value))
  }

  /** The state asked for, and whether to write at all. */
  datatype Request = Request(paused: bool, dryRun: bool)

  /** The write made for one batch, if any. */
  function PutFor(a: Answers, q: Request, batch: Batch, groups: Groups): Option<GroupPut> {
    if q.dryRun || a.group(batch.ref) != Accept || batch.ref !in groups then None
    else PauseWrite(groups[batch.ref], UIDSet(batch.rules), q.paused)
  }

  /** The groups after it. */
  function GroupsAfter(a: Answers, q: Request, batch: Batch, groups: Groups): Groups {
    var put := PutFor(a, q, batch, groups);
    if put.Some? && a.put(batch.ref) == Accept then groups[batch.ref := Stamped(a.stamp, put.value.body)] else groups
  }

  /** The results filed for one batch while the session lives. */
  function ResultsFor(a: Answers, q: Request, batch: Batch, groups: Groups): seq<OpResult> {
    var answer := a.group(batch.ref);
    if answer != Accept then FailAll(batch.rules, NotOK(answer, GroupUnread))
    else if batch.ref !in groups then FailAll(batch.rules, NotFound)
    else
      var g := groups[batch.ref];
      var rules := Present(WriteBody(g, None).rules);
      var named, header := At(rules, Flips(batch.rules, rules, q.paused)), GroupHeader(Present(g.rules));
      Settled(batch.rules, rules, q.paused)
      + if header.Refuse? then FailAll(named, Refused(header.failure))
        else if !q.dryRun && a.put(batch.ref) != Accept then FailAll(named, NotOK(a.put(batch.ref), WriteFailed))
        else ChangeAll(named)
  }

  method FlipRules(rules: seq<Rule>, flip: seq<nat>, paused: bool) returns (flipped: seq<Rule>)
    requires forall p | p in flip :: p < |rules|
    ensures flipped == FlipAt(rules, flip, paused)
  {
    flipped := rules;
    for k := 0 to |flip|
      invariant flipped == FlipAt(rules, flip[..k], paused)
    {
      assert flip[k] in flip;
      FlipOneMore(rules, flip, k, paused);
      flipped := flipped[flip[k] := flipped[flip[k]].(isPaused := paused)];
    }
    assert flip[..|flip|] == flip;
  }

  lemma FailAllDead(rules: seq<Rule>, f: OpFailure)
    ensures Dead(FailAll(rules, f)) <==> rules != [] && f == SessionDead
  {
    if rules != [] && f == SessionDead {
      assert FailAll(rules, f)[0] in FailAll(rules, f);
    }
  }

  lemma NothingFiled(outcome: map<string, OpResult>)
    ensures Filed(outcome, []) == outcome
  {
  }

  /** One more rule fails: its failure is filed, and the run stops there when that is a dead session. */
  lemma FailStep(outcome: map<string, OpResult>, rules: seq<Rule>, i: nat, f: OpFailure)
    requires i < |rules| && !Dead(FailAll(rules[..i], f))
    ensures var y, some := FailureFor(rules[i], f), FailAll(rules[..i + 1], f);
            && Filed(outcome, some) == Filed(outcome, FailAll(rules[..i], f))[y.uid := y]
            && (Dead(some) <==> y.failure == Some(SessionDead))
            && (Dead(some) ==> UpToDead(FailAll(rules, f)) == some && Dead(FailAll(rules, f)))
  {
    hide Dead, UpToDead, Filed, FailureFor;
    var y, before, some, all := FailureFor(rules[i], f), FailAll(rules[..i], f), FailAll(rules[..i + 1], f),
      FailAll(rules, f);
    FailureIs(rules[i], f);
    assert some == before + [y] && all == some + FailAll(rules[i + 1..], f);
    FiledSnoc(outcome, before, y);
    UpToDeadSnoc(before, y);
    UpToDeadConcat(some, FailAll(rules[i + 1..], f));
    DeadConcat(some, FailAll(rules[i + 1..], f));
  }

  /** What settles is filed whole, and what follows up to a dead session. */
  lemma FiledUpToDead(outcome: map<string, OpResult>, settled: seq<OpResult>, rest: seq<OpResult>)
    requires !Dead(settled)
    ensures Filed(Filed(outcome, settled), UpToDead(rest)) == Filed(outcome, UpToDead(settled + rest))
    ensures Dead(settled + rest) <==> Dead(rest)
  {
    hide Dead;
    UpToDeadConcat(settled, rest);
    DeadConcat(settled, rest);
    FiledTwice(outcome, settled, UpToDead(rest));
  }

  lemma {:induction false} SettledAlive(named: seq<Rule>, body: seq<Rule>, paused: bool)
    ensures !Dead(Settled(named, body, paused))
  {
    hide FindRule;
    if named != [] {
      SettledAlive(named[..|named| - 1], body, paused);
    }
  }

  lemma ChangeAllAlive(rules: seq<Rule>)
    ensures !Dead(ChangeAll(rules))
  {
  }

  lemma NothingNamed(rules: seq<Rule>, settled: seq<OpResult>)
    ensures At(rules, []) == [] && ChangeAll([]) == [] && (forall f :: FailAll([], f) == []) && settled + [] == settled
  {
  }

  class RuleOpRun {
    const server: Grafana
    const request: Request
    var order: seq<string>
    var outcome: map<string, OpResult>

    constructor (server: Grafana, uids: seq<string>, request: Request)
      ensures this.server == server && this.request == request
      ensures order == Dedupe(uids) && outcome == map[]
    {
      this.server, this.request := server, request;
      outcome := map[];
      var deduped := DedupeUIDs(uids);
      order := deduped;
    }

    /** Files one outcome; only a dead session stops the run. */
    method Record(result: OpResult) returns (stop: bool)
      modifies this`outcome
      ensures outcome == old(outcome)[result.uid := result] && stop == (result.failure == Some(SessionDead))
    {
      outcome := outcome[result.uid := result];
      stop := result.failure == Some(SessionDead);
    }

    method RecordChanged(rules: seq<Rule>)
      modifies this`outcome
      ensures outcome == Filed(old(outcome), ChangeAll(rules))
    {
      for i := 0 to |rules|
        invariant outcome == Filed(old(outcome), ChangeAll(rules[..i]))
      {
        FiledSnoc(old(outcome), ChangeAll(rules[..i]), ResultFor(rules[i]).(changed := true));
        assert ChangeAll(rules[..i + 1]) == ChangeAll(rules[..i]) + [ResultFor(rules[i]).(changed := true)];
        var stop := Record(ResultFor(rules[i]).(changed := true));
      }
      assert rules[..|rules|] == rules;
    }

    /** The same failure for every one of the rules. */
    method FailRules(rules: seq<Rule>, f: OpFailure) returns (stop: bool)
      modifies this`outcome
      ensures outcome == Filed(old(outcome), UpToDead(FailAll(rules, f))) && (stop <==> Dead(FailAll(rules, f)))
      ensures stop <==> f == SessionDead && rules != []
    {
      NothingDead();
      NothingFiled(outcome);
      FailAllDead(rules, f);
      for i := 0 to |rules|
        invariant outcome == Filed(old(outcome), FailAll(rules[..i], f)) && !Dead(FailAll(rules[..i], f))
      {
        hide *;
        FailStep(old(outcome), rules, i, f);
        stop := Record(FailureFor(rules[i], f));
        if stop {
          return;
        }
      }
      assert rules[..|rules|] == rules;
      AliveIsWhole(FailAll(rules, f));
      stop := false;
    }

    /** Where the body holds a named rule that is to be flipped; any other named rule is settled. */
    method PauseTarget(rule: Rule, body: seq<Rule>) returns (at: Option<nat>)
      modifies this`outcome
      ensures at == FlipOf(rule, body, request.paused)
      ensures outcome == Filed(old(outcome), SettledOf(rule, body, request.paused))
    {
      hide FindRule;
      at := PositionOf(body, rule.uid);
      if at.None? {
        FiledOne(outcome, FailureFor(rule, NoLongerHeld));
        var stop := Record(FailureFor(rule, NoLongerHeld));
      } else if body[at.value].isPaused == request.paused {
        FiledOne(outcome, ResultFor(rule));
        var stop := Record(ResultFor(rule));
        at := None;
      }
    }

    /** Which rules of the body to flip; the others of the batch are settled. */
    method PauseTargets(batch: Batch, body: seq<Rule>) returns (flip: seq<nat>)
      modifies this`outcome
      ensures flip == Flips(batch.rules, body, request.paused)
      ensures outcome == Filed(old(outcome), Settled(batch.rules, body, request.paused))
    {
      flip := [];
      ghost var start := outcome;
      for i := 0 to |batch.rules|
        invariant flip == Flips(batch.rules[..i], body, request.paused)
        invariant outcome == Filed(start, Settled(batch.rules[..i], body, request.paused))
      {
        hide *;
        TargetsStep(start, batch.rules, i, body, request.paused);
        var at := PauseTarget(batch.rules[i], body);
        if at.Some? {
          flip := flip + [at.value];
        }
      }
      assert batch.rules[..|batch.rules|] == batch.rules;
    }

    /** Flips the batch's rules in a copy of the group and writes it, or writes nothing when nothing needs flipping. */
    method PauseGroup(batch: Batch) returns (stop: bool)
      requires WellFormedGroups(server.groups)
      modifies this`outcome, server
      ensures server.groups == GroupsAfter(server.answers, request, batch, old(server.groups))
      ensures var put := PutFor(server.answers, request, batch, old(server.groups));
              server.puts == old(server.puts) + if put.Some? then [put.value] else []
      ensures var results := ResultsFor(server.answers, request, batch, old(server.groups));
              outcome == Filed(old(outcome), UpToDead(results)) && (stop <==> Dead(results))
    {
      hide WellFormedGroups, Flips, Settled, Filed, SetPaused, NeedsFlip, Present, WriteBody, GroupHeader, Dead,
        UpToDead;
      var answer := server.answers.group(batch.ref);
      if answer != Accept {
        stop := FailRules(batch.rules, NotOK(answer, GroupUnread));
        return;
      }
      if batch.ref !in server.groups {
        stop := FailRules(batch.rules, NotFound);
        return;
      }
      var group := server.groups[batch.ref];
      var body := RuleGroupBody(group, None);
      var rules := Present(body.rules);
      assert RefOf(group) == batch.ref && UniqueUIDs(rules) by { GroupsAreUnique(server.groups, batch.ref); }
      FlipsAreNeeded(batch.rules, rules, request.paused);
      ghost var settled := Settled(batch.rules, rules, request.paused);
      SettledAlive(batch.rules, rules, request.paused);
      AliveIsWhole(settled);
      var flip := PauseTargets(batch, rules);
      if |flip| == 0 {
        NothingNamed(rules, settled);
        return false;
      }
      var named := At(rules, flip);
      ChangeAllAlive(named);
      AliveIsWhole(ChangeAll(named));
      var header := GroupProvenanceHeader(group.rules);
      if header.Refuse? {
        stop := FailRules(named, Refused(header.failure));
        FiledUpToDead(old(outcome), settled, FailAll(named, Refused(header.failure)));
        return;
      }
      var flipped := FlipRules(rules, flip, request.paused);
      if request.dryRun {
        RecordChanged(named);
        FiledUpToDead(old(outcome), settled, ChangeAll(named));
        return false;
      }
      answer := server.Put(GroupPut(batch.ref, body.(rules := Wrap(flipped)), header.value));
      if answer != Accept {
        stop := FailRules(named, NotOK(answer, WriteFailed));
        FiledUpToDead(old(outcome), settled, FailAll(named, NotOK(answer, WriteFailed)));
      } else {
        RecordChanged(named);
        FiledUpToDead(old(outcome), settled, ChangeAll(named));
        stop := false;
      }
    }

    /** Looks every named uid up before anything is written; the ones that are not found are settled. */
    method Resolve() returns (rules: seq<Rule>, stop: bool)
      requires WellFormedGroups(server.groups)
      modifies this`outcome
      ensures var results := LookupResults(server.answers, server.groups, order);
              outcome == Filed(old(outcome), UpToDead(results)) && (stop <==> Dead(results))
      ensures !stop ==> rules == Resolved(server.answers, server.groups, order)
    {
      ghost var a, groups, start := server.answers, server.groups, outcome;
      NothingDead();
      NothingFiled(outcome);
      rules := [];
      for i := 0 to |order|
        invariant rules == Resolved(a, groups, order[..i])
        invariant outcome == Filed(start, LookupResults(a, groups, order[..i]))
        invariant !Dead(LookupResults(a, groups, order[..i]))
      {
        hide *;
        ResolveStep(a, groups, start, order, i);
        var found, failure := server.Fetch(order[i]);
        if found.None? {
          stop := Record(OpResult(order[i], "", "", false, Some(failure)));
          if stop {
            return;
          }
        } else {
          rules := rules + [found.value];
        }
      }
      assert order[..|order|] == order;
      AliveIsWhole(LookupResults(a, groups, order));
      stop := false;
    }

    /** One line per named uid that has an outcome, in the order they were named. */
    method Results() returns (results: seq<OpResult>)
      ensures results == Reported(order, outcome)
    {
      results := [];
      for i := 0 to |order|
        invariant results == Reported(order[..i], outcome)
      {
        assert order[..i + 1][..i] == order[..i];
        if order[i] in outcome {
          results := results + [outcome[order[i]]];
        }
      }
      assert order[..|order|] == order;
    }
  }

  /** How many batches a run gets through, the one that finds the session dead included. */
  function Reached(a: Answers, q: Request, batches: seq<Batch>, groups: Groups): (n: nat)
    ensures n <= |batches|
  {
    if batches == [] then 0
    else
      var front := Reached(a, q, batches[..|batches| - 1], groups);
      if Dead(AllResults(a, q, batches[..|batches| - 1], groups)) then front else |batches|
  }

  /** The batches of the named rules that are found. */
  ghost function RunBatches(a: Answers, groups: Groups, uids: seq<string>): seq<Batch> {
    BatchesOf(Resolved(a, groups, Dedupe(uids)))
  }

  /** The batches of a run up to a dead session, none of them when a lookup finds it dead. */
  ghost function RunReached(a: Answers, q: Request, groups: Groups, uids: seq<string>): seq<Batch> {
    if Dead(LookupResults(a, groups, Dedupe(uids))) then []
    else RunBatches(a, groups, uids)[..Reached(a, q, RunBatches(a, groups, uids), groups)]
  }

  /** The results in the order they come about. */
  ghost function RunResults(a: Answers, q: Request, groups: Groups, uids: seq<string>): seq<OpResult> {
    LookupResults(a, groups, Dedupe(uids)) + AllResults(a, q, RunBatches(a, groups, uids), groups)
  }

  /** The whole operation: all the batches in order, or those up to the one that finds the session dead. */
  method SetRulesPaused(server: Grafana, uids: seq<string>, request: Request)
    returns (results: seq<OpResult>, stop: bool)
    requires WellFormedGroups(server.groups)
    modifies server
    ensures var batches := RunReached(server.answers, request, old(server.groups), uids);
            && server.groups == AfterAll(server.answers, request, batches, old(server.groups))
            && server.puts == old(server.puts) + PutsFor(server.answers, request, batches, old(server.groups))
    ensures var filed := RunResults(server.answers, request, old(server.groups), uids);
            results == Reported(Dedupe(uids), Filed(map[], UpToDead(filed))) && (stop <==> Dead(filed))
  {
    hide WellFormedGroups, Resolved, LookupResults, Filed, Partitions, AfterAll, PutsFor, AllResults, GroupsAfter,
      PutFor, ResultsFor, Reported, Reached, Dead, UpToDead, BatchesOf;
    ghost var a, start, order := server.answers, server.groups, Dedupe(uids);
    ghost var lookups := LookupResults(a, start, order);
    NothingAfter(a, request, start);
    var run := new RuleOpRun(server, uids, request);
    var rules;
    rules, stop := run.Resolve();
    UpToDeadConcat(lookups, AllResults(a, request, RunBatches(a, start, uids), start));
    DeadConcat(lookups, AllResults(a, request, RunBatches(a, start, uids), start));
    if stop {
      results := run.Results();
      return;
    }
    AliveIsWhole(lookups);
    NothingDead();
    var all := GroupBatches(rules);
    BatchesPartition(rules);
    for i := 0 to |all|
      invariant run.server == server && run.request == request && run.order == order
      invariant WellFormedGroups(server.groups)
      invariant server.groups == AfterAll(a, request, all[..i], start)
      invariant server.puts == old(server.puts) + PutsFor(a, request, all[..i], start)
      invariant run.outcome == Filed(Filed(map[], lookups), AllResults(a, request, all[..i], start))
      invariant !Dead(AllResults(a, request, all[..i], start))
    {
      assert all[..i + 1] == all[..i] + [all[i]];
      BatchSnoc(a, request, all[..i], all[i], start);
      Untouched(a, request, all, i, rules, start);
      GroupsStayWellFormed(a, request, all[i], server.groups);
      FiledUpToDead(Filed(map[], lookups), AllResults(a, request, all[..i], start),
                    ResultsFor(a, request, all[i], start));
      AliveIsWhole(AllResults(a, request, all[..i + 1], start));
      stop := run.PauseGroup(all[i]);
      if stop {
        DiesHere(a, request, all, i, start);
        FiledTwice(map[], lookups, UpToDead(AllResults(a, request, all[..i + 1], start)));
        results := run.Results();
        return;
      }
    }
    assert all[..|all|] == all;
    ReachesAll(a, request, all, start);
    AliveIsWhole(AllResults(a, request, all, start));
    FiledTwice(map[], lookups, AllResults(a, request, all, start));
    results := run.Results();
  }

  lemma LookupsWhole(a: Answers, groups: Groups, uids: seq<string>, i: nat)
    requires i <= |uids| && Dead(LookupResults(a, groups, uids[..i]))
    ensures UpToDead(LookupResults(a, groups, uids)) == UpToDead(LookupResults(a, groups, uids[..i]))
            && Dead(LookupResults(a, groups, uids))
  {
    hide Dead, LookupResults;
    var some, all := LookupResults(a, groups, uids[..i]), LookupResults(a, groups, uids);
    LookupsGrow(a, groups, uids, i);
    assert some + all[|some|..] == all;
    UpToDeadConcat(some, all[|some|..]);
    DeadConcat(some, all[|some|..]);
  }

  lemma {:induction false} LookupsGrow(a: Answers, groups: Groups, uids: seq<string>, i: nat)
    requires i <= |uids|
    ensures LookupResults(a, groups, uids[..i]) <= LookupResults(a, groups, uids)
    decreases |uids| - i
  {
    hide Lookup;
    if i < |uids| {
      LookupsGrow(a, groups, uids, i + 1);
      assert uids[..i + 1] == uids[..i] + [uids[i]];
      ResolvedSnoc(a, groups, uids[..i], uids[i]);
    } else {
      assert uids[..i] == uids;
    }
  }

  lemma {:induction false} ResultsGrow(a: Answers, q: Request, batches: seq<Batch>, groups: Groups, i: nat)
    requires i <= |batches|
    ensures AllResults(a, q, batches[..i], groups) <= AllResults(a, q, batches, groups)
    decreases |batches| - i
  {
    hide ResultsFor;
    if i < |batches| {
      ResultsGrow(a, q, batches, groups, i + 1);
      assert batches[..i + 1] == batches[..i] + [batches[i]];
      BatchSnoc(a, q, batches[..i], batches[i], groups);
    } else {
      assert batches[..i] == batches;
    }
  }

  /** The session is found dead in batch i: the run has reached i + 1 batches, and nothing is filed after it. */
  lemma DiesHere(a: Answers, q: Request, batches: seq<Batch>, i: nat, groups: Groups)
    requires i < |batches| && !Dead(AllResults(a, q, batches[..i], groups))
             && Dead(AllResults(a, q, batches[..i + 1], groups))
    ensures Reached(a, q, batches, groups) == i + 1
    ensures Dead(AllResults(a, q, batches, groups))
    ensures UpToDead(AllResults(a, q, batches, groups)) == UpToDead(AllResults(a, q, batches[..i + 1], groups))
  {
    hide Dead, AllResults;
    var some, all := AllResults(a, q, batches[..i + 1], groups), AllResults(a, q, batches, groups);
    ResultsGrow(a, q, batches, groups, i + 1);
    assert some + all[|some|..] == all;
    UpToDeadConcat(some, all[|some|..]);
    DeadConcat(some, all[|some|..]);
    ReachesUpTo(a, q, batches, i, groups);
  }

  lemma {:induction false} ReachesUpTo(a: Answers, q: Request, batches: seq<Batch>, i: nat, groups: Groups)
    requires i < |batches| && !Dead(AllResults(a, q, batches[..i], groups))
             && Dead(AllResults(a, q, batches[..i + 1], groups))
    ensures Reached(a, q, batches, groups) == i + 1
    decreases |batches|
  {
    hide Dead, AllResults;
    var front := batches[..|batches| - 1];
    if i < |batches| - 1 {
      assert front[..i] == batches[..i] && front[..i + 1] == batches[..i + 1];
      ReachesUpTo(a, q, front, i, groups);
      ResultsGrow(a, q, front, groups, i + 1);
      var some, all := AllResults(a, q, front[..i + 1], groups), AllResults(a, q, front, groups);
      assert some + all[|some|..] == all;
      DeadConcat(some, all[|some|..]);
    }
  }

  lemma ReachesAll(a: Answers, q: Request, batches: seq<Batch>, groups: Groups)
    requires !Dead(AllResults(a, q, batches, groups))
    ensures Reached(a, q, batches, groups) == |batches|
  {
    hide Dead, AllResults;
    if batches != [] {
      var front := batches[..|batches| - 1];
      ResultsGrow(a, q, batches, groups, |batches| - 1);
      var some, all := AllResults(a, q, front, groups), AllResults(a, q, batches, groups);
      assert some + all[|some|..] == all;
      DeadConcat(some, all[|some|..]);
    }
  }

  /** The rule of that uid, in whichever group holds it. */
  ghost function Lookup(groups: Groups, uid: string): (found: Option<Rule>)
    ensures found.Some? ==>
            found.value.uid == uid && exists ref :: ref in groups && found.value in Present(groups[ref].rules)
    ensures found.None? <==> forall ref | ref in groups :: !Holds(groups[ref], uid)
  {
    if exists ref :: ref in groups && Holds(groups[ref], uid) then
      var ref :| ref in groups && Holds(groups[ref], uid);
      FindRule(Present(groups[ref].rules), uid)
    else None
  }

  lemma FoundByLookup(groups: Groups, uid: string, found: Option<Rule>)
    requires WellFormedGroups(groups)
    requires found.None? <==> forall ref | ref in groups :: !Holds(groups[ref], uid)
    requires found.Some? ==> exists ref :: ref in groups && FindRule(Present(groups[ref].rules), uid) == found
    ensures found == Lookup(groups, uid)
  {
    hide WellFormedGroup;
  }

  lemma LookupOfNothing(groups: Groups)
    ensures Lookup(groups, "").None?
  {
  }

  /** Why the uid names no rule to work on, if it does not. */
  ghost function LookupFailure(a: Answers, groups: Groups, uid: string): Option<OpFailure> {
    if uid != "" && a.rule(uid) != Accept then Some(NotOK(a.rule(uid), LookupFailed))
    else if Lookup(groups, uid).None? then Some(NotFound)
    else None
  }

  /**
   One more uid looked up: its rule is found, or its failure filed, and the run stops there when that is a dead
   session.
   */
  lemma ResolveStep(a: Answers, groups: Groups, outcome: map<string, OpResult>, uids: seq<string>, i: nat)
    requires i < |uids| && !Dead(LookupResults(a, groups, uids[..i]))
    ensures var failure, before, some := LookupFailure(a, groups, uids[i]), LookupResults(a, groups, uids[..i]),
            LookupResults(a, groups, uids[..i + 1]);
            if failure.None? then
              && Lookup(groups, uids[i]).Some? && some == before
              && Resolved(a, groups, uids[..i + 1]) == Resolved(a, groups, uids[..i]) + [Lookup(groups, uids[i]).value]
            else
              && Resolved(a, groups, uids[..i + 1]) == Resolved(a, groups, uids[..i])
              && Filed(outcome, some) == Filed(outcome, before)[uids[i] := OpResult(uids[i], "", "", false, failure)]
              && (Dead(some) <==> failure == Some(SessionDead))
              && (Dead(some) ==>
                    UpToDead(LookupResults(a, groups, uids)) == some && Dead(LookupResults(a, groups, uids)))
  {
    hide Filed, Resolved, LookupResults, Lookup, Dead, UpToDead;
    assert uids[..i + 1] == uids[..i] + [uids[i]];
    LookupOfNothing(groups);
    ResolvedSnoc(a, groups, uids[..i], uids[i]);
    var failure, before := LookupFailure(a, groups, uids[i]), LookupResults(a, groups, uids[..i]);
    if failure.Some? {
      var y := OpResult(uids[i], "", "", false, failure);
      FiledSnoc(outcome, before, y);
      UpToDeadSnoc(before, y);
      if Dead(before + [y]) {
        LookupsWhole(a, groups, uids, i + 1);
      }
    }
  }

  /** The named rules that were found, in order. */
  ghost function Resolved(a: Answers, groups: Groups, uids: seq<string>): seq<Rule> {
    if uids == [] then []
    else
      var uid := uids[|uids| - 1];
      Resolved(a, groups, uids[..|uids| - 1])
      + if a.rule(uid) == Accept && Lookup(groups, uid).Some? then [Lookup(groups, uid).value] else []
  }

  /** The results of the named uids that were not. */
  ghost function LookupResults(a: Answers, groups: Groups, uids: seq<string>): seq<OpResult> {
    if uids == [] then []
    else
      var uid := uids[|uids| - 1];
      LookupResults(a, groups, uids[..|uids| - 1])
      + if uid != "" && a.rule(uid) != Accept then
        [OpResult(uid, "", "", false, Some(NotOK(a.rule(uid), LookupFailed)))]
        else if Lookup(groups, uid).None? then [OpResult(uid, "", "", false, Some(NotFound))]
        else []
  }

  lemma ResolvedSnoc(a: Answers, groups: Groups, uids: seq<string>, uid: string)
    ensures Resolved(a, groups, uids + [uid]) ==
            if a.rule(uid) == Accept && Lookup(groups, uid).Some? then
              Resolved(a, groups, uids) + [Lookup(groups, uid).value]
            else Resolved(a, groups, uids)
    ensures LookupResults(a, groups, uids + [uid]) ==
            if uid != "" && a.rule(uid) != Accept then
              LookupResults(a, groups, uids) + [OpResult(uid, "", "", false, Some(NotOK(a.rule(uid), LookupFailed)))]
            else if Lookup(groups, uid).None? then
              LookupResults(a, groups, uids) + [OpResult(uid, "", "", false, Some(NotFound))]
            else LookupResults(a, groups, uids)
  {
    hide Lookup;
    assert (uids + [uid])[..|uids|] == uids;
  }

  function Reported(order: seq<string>, outcome: map<string, OpResult>): seq<OpResult> {
    if order == [] then []
    else
      var last := order[|order| - 1];
      Reported(order[..|order| - 1], outcome) + if last in outcome then [outcome[last]] else []
  }

  // The batches one after the other; each group is in one batch, so what a batch does only depends on the start.

  function AfterAll(a: Answers, q: Request, batches: seq<Batch>, groups: Groups): Groups {
    if batches == [] then groups
    else GroupsAfter(a, q, batches[|batches| - 1], AfterAll(a, q, batches[..|batches| - 1], groups))
  }

  function PutsFor(a: Answers, q: Request, batches: seq<Batch>, groups: Groups): seq<GroupPut> {
    if batches == [] then []
    else
      var put := PutFor(a, q, batches[|batches| - 1], groups);
      PutsFor(a, q, batches[..|batches| - 1], groups) + if put.Some? then [put.value] else []
  }

  function AllResults(a: Answers, q: Request, batches: seq<Batch>, groups: Groups): seq<OpResult> {
    if batches == [] then []
    else AllResults(a, q, batches[..|batches| - 1], groups) + ResultsFor(a, q, batches[|batches| - 1], groups)
  }

  /** Every outcome of a run the session survives. */
  ghost function Outcomes(a: Answers, q: Request, batches: seq<Batch>, groups: Groups, uids: seq<string>)
    : map<string, OpResult>
  {
    Filed(Filed(map[], LookupResults(a, groups, uids)), AllResults(a, q, batches, groups))
  }

  /** A run that does not find the session dead gets through every batch and reports every outcome. */
  lemma LiveRunIsWhole(a: Answers, q: Request, groups: Groups, uids: seq<string>)
    requires !Dead(RunResults(a, q, groups, uids))
    ensures RunReached(a, q, groups, uids) == RunBatches(a, groups, uids)
    ensures Filed(map[], UpToDead(RunResults(a, q, groups, uids))) ==
            Outcomes(a, q, RunBatches(a, groups, uids), groups, Dedupe(uids))
    ensures Partitions(RunBatches(a, groups, uids), Resolved(a, groups, Dedupe(uids)))
  {
    hide Dead, UpToDead, Filed, LookupResults, AllResults, Resolved, BatchesOf, Partitions, Reached, Dedupe;
    var lookups, batches := LookupResults(a, groups, Dedupe(uids)), RunBatches(a, groups, uids);
    DeadConcat(lookups, AllResults(a, q, batches, groups));
    ReachesAll(a, q, batches, groups);
    assert batches[..|batches|] == batches;
    AliveIsWhole(RunResults(a, q, groups, uids));
    FiledTwice(map[], lookups, AllResults(a, q, batches, groups));
    BatchesPartition(Resolved(a, groups, Dedupe(uids)));
  }

  lemma NothingAfter(a: Answers, q: Request, groups: Groups)
    ensures AfterAll(a, q, [], groups) == groups && PutsFor(a, q, [], groups) == []
            && AllResults(a, q, [], groups) == []
    ensures forall outcome :: Filed(outcome, []) == outcome
  {
  }

  lemma BatchSnoc(a: Answers, q: Request, batches: seq<Batch>, b: Batch, groups: Groups)
    ensures AfterAll(a, q, batches + [b], groups) == GroupsAfter(a, q, b, AfterAll(a, q, batches, groups))
    ensures PutsFor(a, q, batches + [b], groups) ==
            PutsFor(a, q, batches, groups)
            + if PutFor(a, q, b, groups).Some? then [PutFor(a, q, b, groups).value] else []
    ensures AllResults(a, q, batches + [b], groups) == AllResults(a, q, batches, groups) + ResultsFor(a, q, b, groups)
  {
    hide GroupsAfter, PutFor, ResultsFor;
    assert (batches + [b])[..|batches|] == batches;
  }

  lemma {:induction false} OthersUntouched(a: Answers, q: Request, batches: seq<Batch>, groups: Groups, ref: GroupRef)
    requires forall b | b in batches :: b.ref != ref
    ensures ref in AfterAll(a, q, batches, groups) <==> ref in groups
    ensures ref in groups ==> AfterAll(a, q, batches, groups)[ref] == groups[ref]
  {
    hide PutFor;
    if batches != [] {
      assert batches[|batches| - 1] in batches;
      OthersUntouched(a, q, batches[..|batches| - 1], groups, ref);
    }
  }

  /** The next batch finds its group as it was at the start. */
  lemma Untouched(a: Answers, q: Request, batches: seq<Batch>, i: nat, rules: seq<Rule>, groups: Groups)
    requires Partitions(batches, rules) && i < |batches|
    ensures var now := AfterAll(a, q, batches[..i], groups);
            PutFor(a, q, batches[i], now) == PutFor(a, q, batches[i], groups)
            && ResultsFor(a, q, batches[i], now) == ResultsFor(a, q, batches[i], groups)
  {
    hide AfterAll;
    OthersUntouched(a, q, batches[..i], groups, batches[i].ref);
  }

  // ---------------------------------------------------------------------------------------------
  // What a pause leaves behind
  // ---------------------------------------------------------------------------------------------

  /** The rule is as it was, but for its read-only stamps, and paused as asked when it is named. */
  predicate OnlyPaused(before: Rule, after: Rule, named: bool, paused: bool) {
    after == before.(id := after.id, updated := after.updated, provenance := after.provenance,
                     isPaused := if named then paused else before.isPaused)
  }

  /** The group is as it was, rule for rule, the rules of the uids in the requested state. */
  predicate GroupPaused(before: Group, after: Group, uids: set<string>, paused: bool) {
    && after.(rules := before.rules) == before
    && var old_, new_ := Present(before.rules), Present(after.rules);
       |new_| == |old_| && forall i | 0 <= i < |old_| :: OnlyPaused(old_[i], new_[i], old_[i].uid in uids, paused)
  }

  lemma WrittenIsPaused(a: Answers, g: Group, uids: set<string>, paused: bool)
    requires WellFormedGroup(g) && PauseWrite(g, uids, paused).Some?
    ensures GroupPaused(g, Stamped(a.stamp, PauseWrite(g, uids, paused).value.body), uids, paused)
  {
    hide Present, GroupHeader, NeedsFlip, UniqueUIDs, WriteBody;
    WrittenRules(g, None);
    BodyInPlace(g);
    var rules := Present(WriteBody(g, None).rules);
    PresentOfWrap(SetPaused(rules, uids, paused));
    var body := PauseWrite(g, uids, paused).value.body;
    var stored := seq(|Present(body.rules)|, i requires 0 <= i < |Present(body.rules)| =>
      StampRule(a.stamp, Present(body.rules)[i]));
    PresentOfWrap(stored);
    var after := Stamped(a.stamp, body);
    assert after.rules == Wrap(stored) && after.(rules := g.rules) == WriteBody(g, None).(rules := g.rules);
    forall i | 0 <= i < |stored|
      ensures OnlyPaused(Present(g.rules)[i], stored[i], Present(g.rules)[i].uid in uids, paused)
    {
      assert Present(g.rules)[i] in Present(g.rules);
    }
  }

  lemma BodyInPlace(g: Group)
    ensures WriteBody(g, None).(rules := g.rules) == g
  {
  }

  lemma UnflippedIsPaused(g: Group, uids: set<string>, paused: bool)
    requires !NeedsFlip(Present(g.rules), uids, paused)
    ensures GroupPaused(g, g, uids, paused)
  {
    hide Present;
    forall i | 0 <= i < |Present(g.rules)|
      ensures OnlyPaused(Present(g.rules)[i], Present(g.rules)[i], Present(g.rules)[i].uid in uids, paused)
    {
      assert Present(g.rules)[i] in Present(g.rules);
    }
  }

  lemma FlipNeededAlike(a: seq<Rule>, b: seq<Rule>, uids: set<string>, paused: bool)
    requires |a| == |b| && forall i | 0 <= i < |a| :: a[i].uid == b[i].uid && a[i].isPaused == b[i].isPaused
    ensures NeedsFlip(a, uids, paused) ==> NeedsFlip(b, uids, paused)
  {
    if r :| r in a && r.uid in uids && r.isPaused != paused {
      var i :| 0 <= i < |a| && a[i] == r;
      assert b[i] in b;
    }
  }

  lemma FlipOfBody(g: Group, uids: set<string>, paused: bool)
    ensures NeedsFlip(Present(WriteBody(g, None).rules), uids, paused) <==> NeedsFlip(Present(g.rules), uids, paused)
  {
    hide Present, WriteBody, NeedsFlip;
    WrittenRules(g, None);
    FlipNeededAlike(Present(g.rules), Present(WriteBody(g, None).rules), uids, paused);
    FlipNeededAlike(Present(WriteBody(g, None).rules), Present(g.rules), uids, paused);
  }

  lemma PausedStaysWellFormed(before: Group, after: Group, uids: set<string>, paused: bool)
    requires WellFormedGroup(before) && GroupPaused(before, after, uids, paused)
    ensures WellFormedGroup(after) && RefOf(after) == RefOf(before)
    ensures forall uid :: Holds(after, uid) <==> Holds(before, uid)
  {
    hide Present, UniqueUIDs, FindRule;
    var b, c := Present(before.rules), Present(after.rules);
    forall i | 0 <= i < |b|
      ensures c[i].uid == b[i].uid && c[i].folderUID == b[i].folderUID && c[i].ruleGroup == b[i].ruleGroup && b[i] in b
    {
      assert OnlyPaused(b[i], c[i], b[i].uid in uids, paused);
    }
    SameUIDsUnique(c, b);
    assert UIDs(b) == UIDs(c);
    forall uid ensures Holds(after, uid) <==> Holds(before, uid) {
      HeldByIndex(b, uid);
      HeldByIndex(c, uid);
    }
  }

  /** One batch keeps the groups well formed. */
  lemma GroupsStayWellFormed(a: Answers, q: Request, batch: Batch, groups: Groups)
    requires WellFormedGroups(groups)
    ensures WellFormedGroups(GroupsAfter(a, q, batch, groups))
  {
    hide WellFormedGroup, GroupPaused, PauseWrite, Holds;
    var put := PutFor(a, q, batch, groups);
    if put.Some? && a.put(batch.ref) == Accept {
      WrittenIsPaused(a, groups[batch.ref], UIDSet(batch.rules), q.paused);
      PausedStaysWellFormed(groups[batch.ref], Stamped(a.stamp, put.value.body), UIDSet(batch.rules), q.paused);
    }
  }

  lemma {:induction false} FiledTwice(outcome: map<string, OpResult>, a: seq<OpResult>, b: seq<OpResult>)
    ensures Filed(Filed(outcome, a), b) == Filed(outcome, a + b)
    decreases |b|
  {
    if b == [] {
      assert a + b == a;
    } else {
      assert (a + b)[..|a + b| - 1] == a + b[..|b| - 1];
      FiledTwice(outcome, a, b[..|b| - 1]);
    }
  }

  /** The rules with those at the positions put in the requested state. */
  function FlipAt(rules: seq<Rule>, positions: seq<nat>, paused: bool): seq<Rule> {
    seq(|rules|, i requires 0 <= i < |rules| => if i in positions then rules[i].(isPaused := paused) else rules[i])
  }

  lemma FlipOneMore(rules: seq<Rule>, positions: seq<nat>, k: nat, paused: bool)
    requires k < |positions| && positions[k] < |rules|
    ensures var before := FlipAt(rules, positions[..k], paused);
            FlipAt(rules, positions[..k + 1], paused) ==
              before[positions[k] := before[positions[k]].(isPaused := paused)]
  {
    assert positions[..k + 1] == positions[..k] + [positions[k]];
  }

  lemma {:induction false} FlipsMember(named: seq<Rule>, body: seq<Rule>, paused: bool, p: nat)
    requires UniqueUIDs(body) && p < |body|
    ensures p in Flips(named, body, paused) <==> body[p].uid in UIDSet(named) && body[p].isPaused != paused
  {
    hide FindRule;
    if named != [] {
      var front, last := named[..|named| - 1], named[|named| - 1];
      assert named == front + [last];
      FlipsMember(front, body, paused, p);
      var at := PositionOf(body, last.uid);
      if at.None? {
        assert body[p].uid != last.uid by { NotFoundAnywhere(body, last.uid, p); }
      } else {
        PositionIsUnique(body, last.uid, at.value, p);
      }
    }
  }

  lemma NotFoundAnywhere(rules: seq<Rule>, uid: string, p: nat)
    requires UniqueUIDs(rules) && FindRule(rules, uid).None? && p < |rules|
    ensures rules[p].uid != uid
  {
    FindUnique(rules, p);
  }

  lemma PositionIsUnique(rules: seq<Rule>, uid: string, at: nat, p: nat)
    requires UniqueUIDs(rules) && at < |rules| && p < |rules| && rules[at].uid == uid
    ensures rules[p].uid == uid <==> p == at
  {
  }

  lemma GroupsAreUnique(groups: Groups, ref: GroupRef)
    requires WellFormedGroups(groups) && ref in groups
    ensures RefOf(groups[ref]) == ref && UniqueUIDs(Present(WriteBody(groups[ref], None).rules))
  {
    hide WriteBody, Present;
    BodyIsUnique(groups[ref]);
  }

  lemma BodyIsUnique(g: Group)
    requires WellFormedGroup(g)
    ensures UniqueUIDs(Present(WriteBody(g, None).rules))
  {
    hide Present, WriteBody, UniqueUIDs;
    WrittenRules(g, None);
    SameUIDsUnique(Present(WriteBody(g, None).rules), Present(g.rules));
  }

  /** Flipping by position is setting the named rules' state, and something is flipped exactly when it is needed. */
  lemma FlipsAreNeeded(named: seq<Rule>, body: seq<Rule>, paused: bool)
    requires UniqueUIDs(body)
    ensures FlipAt(body, Flips(named, body, paused), paused) == SetPaused(body, UIDSet(named), paused)
    ensures Flips(named, body, paused) != [] <==> NeedsFlip(body, UIDSet(named), paused)
  {
    hide Flips, UIDSet, UniqueUIDs;
    var flips := Flips(named, body, paused);
    forall p | 0 <= p < |body| ensures p in flips <==> body[p].uid in UIDSet(named) && body[p].isPaused != paused {
      FlipsMember(named, body, paused, p);
    }
    if flips != [] {
      assert flips[0] in flips;
      assert body[flips[0]] in body;
    }
    if r :| r in body && r.uid in UIDSet(named) && r.isPaused != paused {
      var p :| 0 <= p < |body| && body[p] == r;
      assert p in flips;
    }
  }
}
