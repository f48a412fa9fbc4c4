/**
 From the plan to convergence: the group requests of a push that nothing stopped and nothing failed are
 the writes of every changed group of the bundle, so planning the bundle again finds nothing to do.
 */
module ApplyConvergence {
  import opened Options
  import opened AlertModels
  import opened GroupPlan
  import opened BundlePlan
  import opened PushRuns
  import opened PushConvergence
  import opened PushTheorems

  /** The bodies of the group requests, in order. */
  function GroupBodies(requests: seq<Write>): seq<Group> {
    if requests == [] then []
    else
      var last := requests[|requests| - 1];
      GroupBodies(requests[..|requests| - 1]) + if last.PutGroup? then [last.group] else []
  }

  lemma {:induction false} BodyIsRequested(requests: seq<Write>, body: Group)
    ensures body in GroupBodies(requests) <==> exists w :: w in requests && w.PutGroup? && w.group == body
  {
    if requests != [] {
      var front, last := requests[..|requests| - 1], requests[|requests| - 1];
      assert requests == front + [last];
      BodyIsRequested(front, body);
    }
  }

  /** The target is planned from the group, beside Grafana's version of it. */
  predicate TargetOf(env: Env, t: Target, g: Group) {
    t.local == g && t.remote == FindGroup(Present(env.remote.groups), RefOf(g))
  }

  lemma {:induction false} TargetsAreGroups(env: Env, pending: map<string, Change>, groups: seq<Group>)
    ensures forall t | t in Targets(env, pending, groups) :: t.local in groups && TargetOf(env, t, t.local)
    ensures forall g | g in groups && GroupID(g) in pending ::
              exists t :: t in Targets(env, pending, groups) && TargetOf(env, t, g)
  {
    hide FindGroup, Present, GroupID;
    if groups != [] {
      var front, last := groups[..|groups| - 1], groups[|groups| - 1];
      assert groups == front + [last];
      TargetsAreGroups(env, pending, front);
      TargetsSnoc(env, pending, front, last);
      var before := Targets(env, pending, front);
      var t := Target(if GroupID(last) in pending then pending[GroupID(last)]
                      else Change(Create, RuleGroupKind, "", []), last,
                      FindGroup(Present(env.remote.groups), RefOf(last)));
      assert TargetOf(env, t, last);
      forall g | g in groups && GroupID(g) in pending
        ensures exists s :: s in Targets(env, pending, groups) && TargetOf(env, s, g)
      {
        if g == last {
          assert t in before + [t];
        } else {
          var s :| s in before && TargetOf(env, s, g);
          assert s in Targets(env, pending, groups);
        }
      }
    }
  }

  lemma {:induction false} WritableOrBlocked(env: Env, targets: seq<Target>, t: Target)
    requires t in targets
    ensures t in Writable(env, targets)
            || Item(t.change, Refuse(FolderFailure(env.folder(t.local.folderUID)))) in BlockedItems(env, targets)
  {
    hide Blocked, FolderFailure;
    var front, last := targets[..|targets| - 1], targets[|targets| - 1];
    assert targets == front + [last];
    if t in front {
      WritableOrBlocked(env, front, t);
    }
  }

  /** Nothing failed: every item is sent and accepted. */
  lemma {:induction false} AllSucceeded(env: Env, p: Progress, items: seq<Item>)
    requires ProcessAll(env, p, items).failed == []
    ensures p.failed == [] && forall item | item in items :: item.verdict.Send?
  {
    if items != [] {
      var front, last := items[..|items| - 1], items[|items| - 1];
      assert items == front + [last];
      AllSucceeded(env, p, front);
    }
  }

  lemma {:induction false} WritesAreSent(items: seq<Item>, w: Write)
    ensures w in Writes(items) <==> exists item :: item in items && item.verdict == Send(w)
  {
    if items != [] {
      var front, last := items[..|items| - 1], items[|items| - 1];
      assert items == front + [last];
      WritesAreSent(front, w);
    }
  }

  function GroupTargets(env: Env, plan: seq<Change>): seq<Target> {
    Targets(env, ByID(PendingOf(plan), RuleGroupKind), Present(env.local.groups))
  }

  lemma {:induction false} PointItemsSendNoGroup(env: Env, pending: map<string, Change>, points: seq<ContactPoint>)
    ensures forall item | item in PointItems(env, pending, points) && item.verdict.Send? ::
            !item.verdict.value.PutGroup?
  {
    hide PointMatch;
    if points != [] {
      PointItemsSendNoGroup(env, pending, points[..|points| - 1]);
    }
  }

  lemma {:induction false} BlockedAreRefused(env: Env, targets: seq<Target>)
    ensures forall item | item in BlockedItems(env, targets) :: item.verdict.Refuse?
  {
    hide Blocked;
    if targets != [] {
      BlockedAreRefused(env, targets[..|targets| - 1]);
    }
  }

  /** Only the writable targets send a group. */
  lemma GroupSenders(env: Env, plan: seq<Change>, item: Item)
    requires item in AllItems(env, plan) && item.verdict.Send? && item.verdict.value.PutGroup?
    ensures item in GroupItems(env, Writable(env, GroupTargets(env, plan)))
  {
    hide PointItems, BlockedItems, GroupItems, Writable, Targets, ByID, PendingOf, FirstTree, Present;
    PointItemsSendNoGroup(env, ByID(PendingOf(plan), ContactPointKind), Present(env.local.contactPoints));
    BlockedAreRefused(env, GroupTargets(env, plan));
  }

  lemma SentIsPlannedBody(env: Env, t: Target)
    requires GroupVerdict(env, t).Send? && TargetOf(env, t, t.local)
    ensures GroupVerdict(env, t).value.PutGroup? && GroupVerdict(env, t).value.group == PlannedBody(env, t.local)
  {
  }

  /** Each group request carries the body of a group of the bundle. */
  lemma EachRequestIsAGroup(env: Env, plan: seq<Change>, w: Write)
    requires w in Writes(AllItems(env, plan)) && w.PutGroup?
    ensures exists g :: g in Present(env.local.groups) && w.group == PlannedBody(env, g)
  {
    hide AllItems, Writes, GroupVerdict, Writable, Targets, ByID, PendingOf, Present, PlannedBody, TargetOf;
    WritesAreSent(AllItems(env, plan), w);
    var item :| item in AllItems(env, plan) && item.verdict == Send(w);
    GroupSenders(env, plan, item);
    var targets := GroupTargets(env, plan);
    var i :| 0 <= i < |Writable(env, targets)| && GroupItems(env, Writable(env, targets))[i] == item;
    var t := Writable(env, targets)[i];
    assert t in Writable(env, targets);
    WritableAmong(env, targets);
    TargetsAreGroups(env, ByID(PendingOf(plan), RuleGroupKind), Present(env.local.groups));
    SentIsPlannedBody(env, t);
  }

  /** Grafana's version of the group is not what the bundle says. */
  predicate NeedsWrite(env: Env, g: Group) {
    var held := FindGroup(Present(env.remote.groups), RefOf(g));
    held.None? || DetailLines(g, held.value) != []
  }

  lemma NeedyIsPending(env: Env, plan: seq<Change>, g: Group)
    requires Planned(env.local, env.remote) == Some(plan) && IDsAreUnique(plan)
    requires g in Present(env.local.groups) && NeedsWrite(env, g)
    ensures GroupID(g) in ByID(PendingOf(plan), RuleGroupKind)
  {
    hide Planned, ByID, PendingOf, Present, FindGroup, DetailLines, IDsAreUnique, GroupID;
    var groups, remotes := Present(env.local.groups), Present(env.remote.groups);
    var i :| 0 <= i < |groups| && groups[i] == g;
    var c := GroupChange(g, remotes);
    assert GroupChanges(groups, remotes)[i] == c;
    PlanHoldsGroups(env.local, env.remote, c);
    LookupFindsOwnEntry(plan, c);
  }

  /** When nothing fails, each group that needs a write is requested. */
  lemma EachNeedyGroupIsRequested(env: Env, plan: seq<Change>, g: Group)
    requires Planned(env.local, env.remote) == Some(plan) && IDsAreUnique(plan)
    requires forall item | item in AllItems(env, plan) :: item.verdict.Send?
    requires g in Present(env.local.groups) && NeedsWrite(env, g)
    ensures exists w :: w in Writes(AllItems(env, plan)) && w.PutGroup? && w.group == PlannedBody(env, g)
  {
    hide Planned, Writes, GroupVerdict, Writable, BlockedItems, Targets, ByID, PendingOf, Present, PlannedBody,
      IDsAreUnique, NeedsWrite, PointItems, TreeItems, GroupID;
    NeedyIsPending(env, plan, g);
    var targets := GroupTargets(env, plan);
    TargetsAreGroups(env, ByID(PendingOf(plan), RuleGroupKind), Present(env.local.groups));
    var t :| t in targets && TargetOf(env, t, g);
    WritableOrBlocked(env, targets, t);
    BlockedAreRefused(env, targets);
    var writable := Writable(env, targets);
    var i :| 0 <= i < |writable| && writable[i] == t;
    var item := Item(t.change, GroupVerdict(env, t));
    assert GroupItems(env, writable)[i] == item;
    assert item in AllItems(env, plan);
    SentIsPlannedBody(env, t);
    WritesAreSent(AllItems(env, plan), item.verdict.value);
  }

  /** An apply of the plan that nothing stopped and in which nothing failed, its requests in the order they arrived. */
  ghost predicate Succeeds(env: Env, plan: seq<Change>, requests: seq<Write>) {
    && !env.dryRun && Planned(env.local, env.remote) == Some(plan) && IDsAreUnique(plan)
    && !Applied(env, plan).stopped && Applied(env, plan).failed == []
    && multiset(requests) == multiset(Applied(env, plan).requests)
  }

  /** Its requests are the writes of its items, none of which is refused. */
  lemma SucceededSendsAll(env: Env, plan: seq<Change>, requests: seq<Write>)
    requires Succeeds(env, plan, requests)
    ensures forall w :: w in requests <==> w in Writes(AllItems(env, plan))
    ensures forall item | item in AllItems(env, plan) :: item.verdict.Send?
    ensures forall w | w in requests :: MayWrite(env, w)
  {
    hide Planned, Applied, AllItems, Writes, IDsAreUnique, ProcessAll, PendingOf, UnchangedOf, MayWrite;
    NoWriteForUnchanged(env, plan);
    UnstoppedRunIsItsItems(env, plan);
    AllSucceeded(env, Progress(UnchangedOf(plan), [], [], false), AllItems(env, plan));
    SameMembers(requests, Applied(env, plan).requests);
    EveryWriteIsAllowed(env, plan);
  }

  /** The plan was made against what the server holds of the bundle's groups; it may hold any others. */
  ghost predicate Shows(server: Server, env: Env) {
    forall g | g in Present(env.local.groups) ::
      Remote(server, RefOf(g)) == FindGroup(Present(env.remote.groups), RefOf(g))
  }

  /** The server went through the writes of those bodies, one after the other. */
  ghost predicate Took(states: seq<Server>, bodies: seq<Group>) {
    |states| == |bodies| + 1 && forall k | 0 <= k < |bodies| :: Put(states[k], bodies[k], states[k + 1])
  }

  /** A group of the bundle the k-th body was made from. */
  ghost function Source(locals: seq<Group>, body: Group, server: Server, org: int): (g: Group)
    requires exists g :: g in locals && body == BodyFor(g, server, org)
    ensures g in locals && body == BodyFor(g, server, org)
  {
    var g :| g in locals && body == BodyFor(g, server, org);
    g
  }

  lemma SameRefSameGroup(locals: seq<Group>, g: Group, h: Group)
    requires ReadableGroups(locals) && g in locals && h in locals && RefOf(g) == RefOf(h)
    ensures g == h
  {
    var i :| 0 <= i < |locals| && locals[i] == g;
    var j :| 0 <= j < |locals| && locals[j] == h;
  }

  /**
   The group requests of a run that nothing stopped and in which nothing failed, in whatever order they
   reached Grafana, are a push of the bundle.
   */
  lemma AcceptedApplyIsAPush(env: Env, plan: seq<Change>, requests: seq<Write>, states: seq<Server>)
    returns (writes: seq<Group>)
    requires Succeeds(env, plan, requests) && ReadableGroups(Present(env.local.groups))
    requires Took(states, GroupBodies(requests)) && Shows(states[0], env)
    ensures PushOf(Present(env.local.groups), writes, states, env.orgID)
    ensures |writes| == |GroupBodies(requests)|
  {
    hide Planned, Applied, AllItems, Writes, ReadableGroups, IDsAreUnique, DetailLines, FindGroup, ProcessAll, Put,
      Present, WriteBody, ResolvedOrg, GroupBodies, UnchangedOf, PendingOf, MayWrite;
    var locals, bodies, org := Present(env.local.groups), GroupBodies(requests), env.orgID;
    SucceededSendsAll(env, plan, requests);
    forall k | 0 <= k < |bodies| ensures exists g :: g in locals && bodies[k] == BodyFor(g, states[0], org) {
      BodyIsRequested(requests, bodies[k]);
      var w :| w in requests && w.PutGroup? && w.group == bodies[k];
      EachRequestIsAGroup(env, plan, w);
      var g :| g in locals && w.group == PlannedBody(env, g);
      assert bodies[k] == BodyFor(g, states[0], org);
    }
    writes := seq(|bodies|, k requires 0 <= k < |bodies| => Source(locals, bodies[k], states[0], org));
    forall g | g in locals && !IsUnchanged(g, states[0]) ensures g in writes {
      assert Remote(states[0], RefOf(g)) == FindGroup(Present(env.remote.groups), RefOf(g));
      EachNeedyGroupIsRequested(env, plan, g);
      BodyIsRequested(requests, PlannedBody(env, g));
      var k :| 0 <= k < |bodies| && bodies[k] == PlannedBody(env, g);
      WrittenRules(g, ResolvedOrg(Remote(states[0], RefOf(g)), org));
      WrittenRules(writes[k], ResolvedOrg(Remote(states[0], RefOf(writes[k])), org));
      SameRefSameGroup(locals, g, writes[k]);
    }
  }

  lemma SameMembers<T>(a: seq<T>, b: seq<T>)
    requires multiset(a) == multiset(b)
    ensures forall x :: x in a <==> x in b
  {
    assert forall x :: x in a <==> x in multiset(a);
  }

  /**
   After a push that nothing stopped and in which nothing failed, a group of the bundle plans as Unchanged
   exactly when all its rules carry uids.
   */
  lemma AcceptedApplyConverges(env: Env, plan: seq<Change>, requests: seq<Write>, states: seq<Server>, g: Group)
    requires Succeeds(env, plan, requests) && ReadableGroups(Present(env.local.groups))
    requires Took(states, GroupBodies(requests)) && Shows(states[0], env)
    requires g in Present(env.local.groups) && NoUIDTwice(Present(g.rules))
    ensures IsUnchanged(g, states[|states| - 1]) <==> EveryRuleHasUID(Present(g.rules))
  {
    hide Applied, Planned, ReadableGroups, IsUnchanged, Put, GroupBodies, Present, EveryRuleHasUID, NoUIDTwice,
      IDsAreUnique, Shows, DetailLines;
    var writes := AcceptedApplyIsAPush(env, plan, requests, states);
    ConvergesExactlyWithUIDs(Present(env.local.groups), writes, states, env.orgID, g);
  }
}
