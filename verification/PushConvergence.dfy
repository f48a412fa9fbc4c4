/**
 Pushing converges: against a server that replaces a rule group with the body it receives, planning the
 same bundle again after a fully successful push reports every group whose rules carry uids as Unchanged.
 */
module PushConvergence {
  import opened Options
  import opened AlertModels
  import opened GroupPlan
  import JsonValues

  /** The rule groups Grafana holds. */
  type Server = map<GroupRef, Group>

  /**
   The server keeps what the body says of a rule, and decides the rest: the read-only fields and a missing uid
   or organization.
   */
  predicate StoredRule(body: Rule, stored: Rule) {
    && (body.uid != "" ==> stored.uid == body.uid)
    && (body.orgID.Some? ==> stored.orgID == body.orgID)
    && stored.title == body.title && stored.folderUID == body.folderUID && stored.ruleGroup == body.ruleGroup
    && stored.isPaused == body.isPaused && stored.rest == body.rest
  }

  predicate StoredGroup(body: Group, stored: Group) {
    && stored.interval == body.interval
    && var b, s := Present(body.rules), Present(stored.rules);
       |s| == |b| && forall i | 0 <= i < |b| :: StoredRule(b[i], s[i])
  }

  /** No rule of the group is one the body carries. */
  predicate SharesNoRule(g: Group, body: Group) {
    forall r | r in Present(g.rules) && r.uid != "" :: !Holds(body, r.uid)
  }

  /**
   One PUT. A rule written into one group leaves whatever other group held it, so nothing is promised of a
   group that loses one; every other group stays as it is.
   */
  predicate Put(before: Server, body: Group, after: Server) {
    && RefOf(body) in after && StoredGroup(body, after[RefOf(body)])
    && forall ref | ref in before && ref != RefOf(body) && SharesNoRule(before[ref], body) ::
         ref in after && after[ref] == before[ref]
  }

  function Remote(server: Server, ref: GroupRef): Option<Group> {
    if ref in server then Some(server[ref]) else None
  }

  /** The body of one group's write, its organization resolved from the remote side the plan was made from. */
  function BodyFor(g: Group, planned: Server, contextOrg: int): Group {
    WriteBody(g, ResolvedOrg(Remote(planned, RefOf(g)), contextOrg))
  }

  /** The group needs no write. */
  predicate IsUnchanged(g: Group, server: Server) {
    RefOf(g) in server && DetailLines(g, server[RefOf(g)]) == []
  }

  /** A bundle as read from disk: no two files describe one group, and a uid is declared once. */
  ghost predicate ReadableGroups(locals: seq<Group>) {
    forall i, j | 0 <= i < j < |locals| ::
      && RefOf(locals[i]) != RefOf(locals[j])
      && forall uid | Holds(locals[i], uid) :: !Holds(locals[j], uid)
  }

  /** The writes of one push, in whatever order they finished: states[k] is the server after k of them. */
  ghost predicate PushOf(locals: seq<Group>, writes: seq<Group>, states: seq<Server>, contextOrg: int) {
    && |states| == |writes| + 1
    && (forall k | 0 <= k < |writes| ::
          writes[k] in locals && Put(states[k], BodyFor(writes[k], states[0], contextOrg), states[k + 1]))
    && (forall g | g in locals && !IsUnchanged(g, states[0]) :: g in writes)
  }

  /** What the k first writes have done for g. */
  predicate Settled(g: Group, writes: seq<Group>, start: Server, now: Server, contextOrg: int) {
    if g in writes then RefOf(g) in now && StoredGroup(BodyFor(g, start, contextOrg), now[RefOf(g)])
    else IsUnchanged(g, start) ==> RefOf(g) in now && now[RefOf(g)] == start[RefOf(g)]
  }

  lemma BodyHolds(g: Group, org: Option<int>, uid: string)
    ensures Holds(WriteBody(g, org), uid) <==> Holds(g, uid)
  {
    hide FindRule, Present;
    WrittenRules(g, org);
    var pinned := PinAll(Present(g.rules), g.folderUID, g.title, org);
    HeldByIndex(Present(g.rules), uid);
    HeldByIndex(pinned, uid);
    assert forall i | 0 <= i < |pinned| :: pinned[i].uid == Present(g.rules)[i].uid;
  }

  /** What is stored for one group of the bundle holds no uid another one does, so another write leaves it alone. */
  lemma OthersAreLeftAlone(g: Group, held: Group, other: Group, org: Option<int>)
    requires forall uid | Holds(other, uid) :: !Holds(g, uid)
    requires forall r | r in Present(held.rules) :: r.uid != "" ==> Holds(g, r.uid)
    ensures SharesNoRule(held, WriteBody(other, org))
  {
    hide Holds, WriteBody, Present;
    forall r | r in Present(held.rules) && r.uid != "" ensures !Holds(WriteBody(other, org), r.uid) {
      BodyHolds(other, org, r.uid);
    }
  }

  lemma StoredHoldsOwn(g: Group, org: Option<int>, stored: Group)
    requires StoredGroup(WriteBody(g, org), stored) && UniqueUIDs(Present(g.rules))
    ensures UniqueUIDs(Present(stored.rules))
    ensures forall r | r in Present(stored.rules) :: Holds(g, r.uid)
  {
    hide WriteBody, Present, FindRule;
    WrittenRules(g, org);
    var pinned, s := Present(WriteBody(g, org).rules), Present(stored.rules);
    forall i | 0 <= i < |s| ensures s[i].uid == Present(g.rules)[i].uid {
      assert StoredRule(pinned[i], s[i]);
    }
    forall r | r in s ensures Holds(g, r.uid) {
      var i :| 0 <= i < |s| && s[i] == r;
      HeldByIndex(Present(g.rules), r.uid);
    }
  }

  lemma UnchangedHoldsOwn(g: Group, held: Group)
    requires DetailLines(g, held) == []
    ensures forall r | r in Present(held.rules) :: Holds(g, r.uid)
  {
    hide RuleLines, Present, FindRule;
    assert RuleLines(g, held) == [];
    RuleLinesEmpty(g, held);
  }

  /** The group written is the only one of the bundle the write settles; the others keep what they had. */
  lemma {:induction false} PushSettles(locals: seq<Group>, writes: seq<Group>, states: seq<Server>, contextOrg: int,
                                       g: Group, k: nat)
    requires ReadableGroups(locals) && PushOf(locals, writes, states, contextOrg)
    requires g in locals && UniqueUIDs(Present(g.rules)) && k <= |writes|
    ensures Settled(g, writes[..k], states[0], states[k], contextOrg)
  {
    hide Holds, UniqueUIDs, StoredGroup, DetailLines, WriteBody, ReadableGroups, ResolvedOrg, SharesNoRule;
    if k > 0 {
      PushSettles(locals, writes, states, contextOrg, g, k - 1);
      var w := writes[k - 1];
      assert writes[..k] == writes[..k - 1] + [w];
      assert Put(states[k - 1], BodyFor(w, states[0], contextOrg), states[k]);
      WrittenRules(w, ResolvedOrg(Remote(states[0], RefOf(w)), contextOrg));
      if w != g && (g in writes[..k - 1] || IsUnchanged(g, states[0])) {
        TwoGroups(locals, g, w);
        KeepsThroughOne(g, w, states[0], states[k - 1], writes[..k - 1], contextOrg);
      }
    }
  }

  lemma TwoGroups(locals: seq<Group>, g: Group, w: Group)
    requires ReadableGroups(locals) && g in locals && w in locals && g != w
    ensures RefOf(g) != RefOf(w) && forall uid | Holds(w, uid) :: !Holds(g, uid)
  {
    hide Holds;
    var i :| 0 <= i < |locals| && locals[i] == g;
    var j :| 0 <= j < |locals| && locals[j] == w;
  }

  lemma KeepsThroughOne(g: Group, w: Group, start: Server, now: Server, writes: seq<Group>, contextOrg: int)
    requires RefOf(g) != RefOf(w) && UniqueUIDs(Present(g.rules)) && forall uid | Holds(w, uid) :: !Holds(g, uid)
    requires Settled(g, writes, start, now, contextOrg) && (g in writes || IsUnchanged(g, start))
    ensures RefOf(g) in now && SharesNoRule(now[RefOf(g)], BodyFor(w, start, contextOrg))
  {
    hide Holds, UniqueUIDs, StoredGroup, WriteBody, ResolvedOrg, DetailLines, SharesNoRule;
    if g in writes {
      StoredHoldsOwn(g, ResolvedOrg(Remote(start, RefOf(g)), contextOrg), now[RefOf(g)]);
    } else {
      UnchangedHoldsOwn(g, now[RefOf(g)]);
    }
    OthersAreLeftAlone(g, now[RefOf(g)], w, ResolvedOrg(Remote(start, RefOf(w)), contextOrg));
  }

  /** What a write stored compares equal to the file it came from, whatever the file left out. */
  lemma StoredPlansUnchanged(g: Group, org: Option<int>, stored: Group)
    requires StoredGroup(WriteBody(g, org), stored) && UniqueUIDs(Present(g.rules))
    ensures DetailLines(g, stored) == []
  {
    hide DetailLines, WriteBody, Present, UniqueUIDs, SameRule;
    StoredHoldsOwn(g, org, stored);
    WrittenRules(g, org);
    var locals, pinned, s := Present(g.rules), Present(WriteBody(g, org).rules), Present(stored.rules);
    forall i | 0 <= i < |locals| ensures SameRule(PinRule(locals[i], g.folderUID, g.title, s[i].orgID), s[i]) {
      assert StoredRule(pinned[i], s[i]);
      assert locals[i].uid != "" by { assert UniqueUIDs(locals); NonEmptyUID(locals, i); }
      StoredIsPinned(locals[i], s[i], g.folderUID, g.title, org);
    }
    assert stored.interval == g.interval by { BodyInterval(g, org); }
    EmptyDetailMeansSameInPlace(g, stored);
  }

  lemma BodyInterval(g: Group, org: Option<int>)
    ensures WriteBody(g, org).interval == g.interval
  {
  }

  lemma NonEmptyUID(rules: seq<Rule>, i: nat)
    requires UniqueUIDs(rules) && i < |rules|
    ensures rules[i].uid != ""
  {
  }

  lemma StoredIsPinned(r: Rule, stored: Rule, folderUID: string, title: string, org: Option<int>)
    requires r.uid != "" && StoredRule(PinRule(r, folderUID, title, org), stored)
    ensures SameRule(PinRule(r, folderUID, title, stored.orgID), stored)
  {
    JsonValues.SameMeaningIsReflexive(JsonValues.Obj(r.rest - RULE_KEYS));
  }

  /**
   After a push every write of which succeeded, in whatever order, the same bundle plans as Unchanged for
   every group whose rules all carry uids.
   */
  lemma PushConverges(locals: seq<Group>, writes: seq<Group>, states: seq<Server>, contextOrg: int, g: Group)
    requires ReadableGroups(locals) && PushOf(locals, writes, states, contextOrg)
    requires g in locals && UniqueUIDs(Present(g.rules))
    ensures IsUnchanged(g, states[|writes|])
  {
    hide UniqueUIDs, DetailLines, WriteBody, ResolvedOrg, ReadableGroups, Put, StoredGroup;
    PushSettles(locals, writes, states, contextOrg, g, |writes|);
    assert writes[..|writes|] == writes;
    if g in writes {
      StoredPlansUnchanged(g, ResolvedOrg(Remote(states[0], RefOf(g)), contextOrg), states[|writes|][RefOf(g)]);
    }
  }

  /**
   A group with a rule that has no uid is planned as a write against any remote group whatsoever, the one
   its own write left included: no remote rule is ever found for the rule.
   */
  lemma UIDlessRuleIsPlannedAgain(g: Group, remote: Group, r: Rule)
    requires r in Present(g.rules) && r.uid == ""
    ensures DetailLines(g, remote) != []
  {
    hide EqualRules, Present, ReplacedRule, RuleDetail, ReplacedRuleDetail, RuleLines;
    RuleLinesEmpty(g, remote);
    assert FindRule(Present(remote.rules), "").None?;
    assert LocalRuleLines(r, g, Present(remote.rules)) != [];
    assert !AllSilent(Present(g.rules), g, Present(remote.rules));
  }

  /** No uid twice; any number of rules may have none. */
  predicate NoUIDTwice(rules: seq<Rule>) {
    forall i, j | 0 <= i < j < |rules| :: rules[i].uid == rules[j].uid ==> rules[i].uid == ""
  }

  predicate EveryRuleHasUID(rules: seq<Rule>) {
    forall r | r in rules :: r.uid != ""
  }

  /**
   After a push every write of which succeeded, in whatever order, a group of the bundle plans as Unchanged
   exactly when all its rules carry uids.
   */
  lemma ConvergesExactlyWithUIDs(locals: seq<Group>, writes: seq<Group>, states: seq<Server>, contextOrg: int, g: Group)
    requires ReadableGroups(locals) && PushOf(locals, writes, states, contextOrg)
    requires g in locals && NoUIDTwice(Present(g.rules))
    ensures IsUnchanged(g, states[|writes|]) <==> EveryRuleHasUID(Present(g.rules))
  {
    hide DetailLines, Present, ReadableGroups, Put;
    if EveryRuleHasUID(Present(g.rules)) {
      assert UniqueUIDs(Present(g.rules));
      PushConverges(locals, writes, states, contextOrg, g);
    } else if RefOf(g) in states[|writes|] {
      var r :| r in Present(g.rules) && r.uid == "";
      UIDlessRuleIsPlannedAgain(g, states[|writes|][RefOf(g)], r);
    }
  }
}
