/**
 When a push ends early. A run that goes on after failures ends at an unknown folder or a dead session
 only; a run that stops on them ends at the first failure of any kind.
 */
module PushStops {
  import opened AlertModels
  import opened BundlePlan
  import opened PushRuns
  import opened PushApply
  import opened PlanMeaning
  import opened PushTheorems
  import opened Sequences
  import opened Sorting

  /** A group about to be written is in a folder whose existence could not be found out. */
  ghost predicate FolderUnknown(env: Env, plan: seq<Change>) {
    exists g, c :: Awaits(env, plan, g, c) && env.folder(g.folderUID) == Unavailable
  }

  /** The entry is pending and is the group's own. */
  predicate Awaits(env: Env, plan: seq<Change>, g: Group, c: Change) {
    && g in Present(env.local.groups) && c in plan
    && c.kind == RuleGroupKind && c.action != Unchanged && c.id == GroupID(g)
  }

  lemma {:induction false} TargetsOfGroups(env: Env, pending: map<string, Change>, groups: seq<Group>, uid: string)
    ensures (exists t :: t in Targets(env, pending, groups) && t.local.folderUID == uid) <==>
            exists g :: g in groups && GroupID(g) in pending && g.folderUID == uid
  {
    hide FindGroup, GroupID, Targets, Present;
    if groups == [] {
      assert Targets(env, pending, groups) == [] by { NoTargets(env, pending); }
    } else {
      var front, g := groups[..|groups| - 1], groups[|groups| - 1];
      assert groups == front + [g];
      TargetsOfGroups(env, pending, front, uid);
      TargetsSnoc(env, pending, front, g);
      assert forall h :: h in groups <==> h in front || h == g;
      if GroupID(g) in pending {
        var last := Target(pending[GroupID(g)], g, FindGroup(Present(env.remote.groups), RefOf(g)));
        assert forall t :: t in Targets(env, pending, groups) <==> t in Targets(env, pending, front) || t == last;
      }
    }
  }

  lemma NoTargets(env: Env, pending: map<string, Change>)
    ensures Targets(env, pending, []) == []
  {
  }

  /** The folder check of the run is about the pending groups. */
  lemma FolderCheckIsOfPending(env: Env, plan: seq<Change>)
    ensures FolderCheckFails(env, Targets(env, ByID(PendingOf(plan), RuleGroupKind), Present(env.local.groups))) <==>
            FolderUnknown(env, plan)
  {
    hide Targets, ByID, PendingOf, Present, GroupID;
    var pending, groups := ByID(PendingOf(plan), RuleGroupKind), Present(env.local.groups);
    var targets := Targets(env, pending, groups);
    IndexedByID(PendingOf(plan), RuleGroupKind);
    if FolderCheckFails(env, targets) {
      var t :| t in targets && env.folder(t.local.folderUID) == Unavailable;
      TargetsOfGroups(env, pending, groups, t.local.folderUID);
      var g :| g in groups && GroupID(g) in pending && g.folderUID == t.local.folderUID;
      PendingMember(plan, pending[GroupID(g)]);
      assert Awaits(env, plan, g, pending[GroupID(g)]);
    }
    if FolderUnknown(env, plan) {
      var g, c :| Awaits(env, plan, g, c) && env.folder(g.folderUID) == Unavailable;
      PendingMember(plan, c);
      TargetsOfGroups(env, pending, groups, g.folderUID);
    }
  }

  // ---------------------------------------------------------------------------------------------
  // A run that goes on after failures
  // ---------------------------------------------------------------------------------------------

  /** Grafana took the session for dead when this request was made. */
  predicate Dead(env: Env, w: Write) {
    env.answer(w) == DeadSession
  }

  predicate AnyDead(env: Env, requests: seq<Write>) {
    exists w :: w in requests && Dead(env, w)
  }

  lemma AnyDeadConcat(env: Env, a: seq<Write>, b: seq<Write>)
    ensures AnyDead(env, a + b) <==> AnyDead(env, a) || AnyDead(env, b)
  {
  }

  /** The step stops the run exactly when it makes a request and finds the session dead. */
  lemma LaxStep(env: Env, p: Progress, item: Item)
    requires !env.stopOnError && item.verdict != Refuse(Unauthorized)
    ensures var sent := Sent(env, item.verdict);
            && Step(env, p, item).requests == p.requests + sent && |sent| <= 1
            && (Step(env, p, item).stopped <==> p.stopped || AnyDead(env, sent))
  {
    if item.verdict.Send? && !env.dryRun {
      assert item.verdict.value in Sent(env, item.verdict);
    }
  }

  /** Nothing follows a request that found the session dead. */
  predicate DeadIsLast(env: Env, requests: seq<Write>) {
    forall i | 0 <= i < |requests| - 1 :: !Dead(env, requests[i])
  }

  lemma {:induction false} LaxProcess(env: Env, p: Progress, items: seq<Item>)
    requires !env.stopOnError && !p.stopped && NoneDead(items) && !AnyDead(env, p.requests)
    ensures var done := Process(env, p, items);
            && (done.stopped <==> AnyDead(env, done.requests)) && DeadIsLast(env, done.requests)
  {
    hide Step, NoneDead;
    if items != [] {
      var front, last := items[..|items| - 1], items[|items| - 1];
      NoneDeadSplit(items);
      LaxProcess(env, p, front);
      LaxStep(env, Process(env, p, front), last);
      AnyDeadConcat(env, Process(env, p, front).requests, Sent(env, last.verdict));
    }
  }

  lemma {:induction false} LaxProcessAll(env: Env, p: Progress, items: seq<Item>)
    requires !env.stopOnError && NoneDead(items) && (p.stopped <==> AnyDead(env, p.requests))
    ensures ProcessAll(env, p, items).stopped <==> AnyDead(env, ProcessAll(env, p, items).requests)
  {
    hide Step, NoneDead;
    if items != [] {
      var front, last := items[..|items| - 1], items[|items| - 1];
      NoneDeadSplit(items);
      LaxProcessAll(env, p, front);
      LaxStep(env, ProcessAll(env, p, front), last);
      AnyDeadConcat(env, ProcessAll(env, p, front).requests, Sent(env, last.verdict));
    }
  }

  lemma NoneDeadSplit(items: seq<Item>)
    requires NoneDead(items) && items != []
    ensures NoneDead(items[..|items| - 1]) && items[|items| - 1].verdict != Refuse(Unauthorized)
  {
    assert items == items[..|items| - 1] + [items[|items| - 1]];
  }

  /** When the request finds the session dead, the later one is made only if both are writes of groups. */
  predicate MayFollow(env: Env, w: Write, later: Write) {
    Dead(env, w) ==> Phase(w) == 2 && Phase(later) == 2
  }

  /** A request that found the session dead is followed by nothing, unless both are writes of groups. */
  predicate DeadEnds(env: Env, requests: seq<Write>) {
    forall i, j | 0 <= i < j < |requests| :: MayFollow(env, requests[i], requests[j])
  }

  function Start(plan: seq<Change>): Progress {
    Progress(UnchangedOf(plan), [], [], false)
  }

  function Points(env: Env, plan: seq<Change>): seq<Item> {
    PointItems(env, ByID(PendingOf(plan), ContactPointKind), Present(env.local.contactPoints))
  }

  function PlanTargets(env: Env, plan: seq<Change>): seq<Target> {
    Targets(env, ByID(PendingOf(plan), RuleGroupKind), Present(env.local.groups))
  }

  /** The run before the phase of the groups. */
  function BeforeGroups(env: Env, plan: seq<Change>): Progress {
    var points := Process(env, Start(plan), Points(env, plan));
    if points.stopped then points else Process(env, points, TreeItems(env, PendingOf(plan)))
  }

  lemma AppliedIsPhases(env: Env, plan: seq<Change>)
    ensures Applied(env, plan) ==
            if BeforeGroups(env, plan).stopped then BeforeGroups(env, plan)
            else AfterGroups(env, BeforeGroups(env, plan), PlanTargets(env, plan))
  {
    hide Process, AfterGroups, PointItems, TreeItems, Targets, ByID, PendingOf, UnchangedOf, Present;
  }

  lemma LaxBeforeGroups(env: Env, plan: seq<Change>)
    requires !env.stopOnError
    ensures var p := BeforeGroups(env, plan);
            && (p.stopped <==> AnyDead(env, p.requests)) && DeadIsLast(env, p.requests) && UpToPhase(p.requests, 1)
            && (!p.stopped ==> p == ProcessAll(env, Start(plan), Points(env, plan) + TreeItems(env, PendingOf(plan))))
  {
    hide Process, ProcessAll, PointItems, TreeItems, ByID, PendingOf, UnchangedOf, Present, NoneDead, Phase;
    var pending := PendingOf(plan);
    PointItemsAlive(env, ByID(pending, ContactPointKind), Present(env.local.contactPoints));
    TreeAlive(env, pending);
    LaxProcess(env, Start(plan), Points(env, plan));
    PointRequests(env, ByID(pending, ContactPointKind), Start(plan));
    var points := Process(env, Start(plan), Points(env, plan));
    if !points.stopped {
      LaxProcess(env, points, TreeItems(env, pending));
      TreeRequests(env, pending, points);
      ProcessWithoutStop(env, Start(plan), Points(env, plan));
      if !Process(env, points, TreeItems(env, pending)).stopped {
        ProcessWithoutStop(env, points, TreeItems(env, pending));
        ProcessAllConcat(env, Start(plan), Points(env, plan), TreeItems(env, pending));
      }
    }
  }

  /** The groups, when the folders are known: all are attempted. */
  lemma LaxGroups(env: Env, p: Progress, targets: seq<Target>)
    requires !env.stopOnError && !p.stopped && !AnyDead(env, p.requests) && !FolderCheckFails(env, targets)
    ensures var done := AfterGroups(env, p, targets);
            && (done.stopped <==> AnyDead(env, done.requests))
            && done == ProcessAll(env, p, BlockedItems(env, targets) + GroupItems(env, Writable(env, targets)))
  {
    hide Process, ProcessAll, BlockedItems, GroupItems, Writable, FolderCheckFails, NoneDead;
    var blocked := Process(env, p, BlockedItems(env, targets));
    GroupItemsAlive(env, targets);
    GroupItemsAlive(env, Writable(env, targets));
    BlockedSendNothing(env, p, targets);
    LaxProcess(env, p, BlockedItems(env, targets));
    LaxProcessAll(env, blocked, GroupItems(env, Writable(env, targets)));
    ProcessWithoutStop(env, p, BlockedItems(env, targets));
    ProcessAllConcat(env, p, BlockedItems(env, targets), GroupItems(env, Writable(env, targets)));
  }

  lemma DeadOnlyInGroups(env: Env, head: seq<Write>, tail: seq<Write>)
    requires !AnyDead(env, head) && forall w | w in tail :: Phase(w) == 2
    ensures DeadEnds(env, head + tail)
  {
    var all := head + tail;
    assert forall k | 0 <= k < |head| :: all[k] == head[k] && head[k] in head;
    forall i, j | 0 <= i < j < |all| ensures MayFollow(env, all[i], all[j]) {
      assert Dead(env, all[i]) ==> all[i] in tail && all[j] in tail;
    }
  }

  /**
   Without stop-on-error a run ends early for two reasons only: a folder could not be asked for, or a request
   found the session dead. Nothing follows such a request of the first two phases; every group is attempted
   once the phase is reached, and then the run is all of its items.
   */
  lemma LaxRunStops(env: Env, plan: seq<Change>)
    requires !env.stopOnError
    ensures var done := Applied(env, plan);
            && (done.stopped <==> FolderUnknown(env, plan) || AnyDead(env, done.requests))
            && DeadEnds(env, done.requests)
            && (FolderUnknown(env, plan) ==> forall w | w in done.requests :: Phase(w) <= 1)
            && (!FolderUnknown(env, plan) && (forall w | w in done.requests && Dead(env, w) :: Phase(w) == 2) ==>
                  done == ProcessAll(env, Start(plan), AllItems(env, plan)))
  {
    hide BeforeGroups, AfterGroups, ProcessAll, TreeItems, GroupItems, BlockedItems, Writable, FolderUnknown,
      FolderCheckFails, Phase, PendingOf, UnchangedOf, ByID, Targets, PointItems, Present, Applied;
    var p, targets := BeforeGroups(env, plan), PlanTargets(env, plan);
    AppliedIsPhases(env, plan);
    LaxBeforeGroups(env, plan);
    FolderCheckIsOfPending(env, plan);
    if !p.stopped {
      UnknownEndsGroups(env, p, targets);
      if !FolderCheckFails(env, targets) {
        LaxGroups(env, p, targets);
        GroupsOnly(env, p, targets);
        var done := AfterGroups(env, p, targets);
        assert done.requests == p.requests + done.requests[|p.requests|..];
        DeadOnlyInGroups(env, p.requests, done.requests[|p.requests|..]);
        var a, b, c := Points(env, plan), TreeItems(env, PendingOf(plan)), BlockedItems(env, targets);
        var d := GroupItems(env, Writable(env, targets));
        ProcessAllConcat(env, Start(plan), a + b, c + d);
        assert a + b + c + d == a + b + (c + d);
      }
    }
  }

  lemma UnknownEndsGroups(env: Env, p: Progress, targets: seq<Target>)
    ensures FolderCheckFails(env, targets) ==> AfterGroups(env, p, targets) == p.(stopped := true)
  {
  }

  /** The same of the requests as they arrive. */
  lemma ArrivedDeadEnds(env: Env, arrived: seq<Write>, requests: seq<Write>)
    requires Arrived(env, arrived, requests) && DeadEnds(env, requests)
    ensures DeadEnds(env, arrived)
  {
    hide Phase;
    SameSize(arrived, requests);
    assert env.stopOnError || SameBeforeGroups(arrived, requests);
    forall i, j | 0 <= i < j < |arrived| ensures MayFollow(env, arrived[i], arrived[j]) {
      assert Phase(arrived[i]) <= Phase(arrived[j]);
      assert arrived[i] == requests[i] || (Phase(arrived[i]) == 2 && Phase(requests[i]) == 2);
      assert MayFollow(env, requests[i], requests[j]);
      PhaseIsSmall(arrived[j]);
    }
  }

  lemma PhaseIsSmall(w: Write)
    ensures Phase(w) <= 2
  {
  }

  // ---------------------------------------------------------------------------------------------
  // A run that stops on failures
  // ---------------------------------------------------------------------------------------------

  /**
   The run attempted the first n items and no other; nothing failed but possibly the last of them, and exactly
   then the run stopped.
   */
  predicate StopsAt(env: Env, p: Progress, items: seq<Item>, done: Progress, n: nat) {
    && n <= |items|
    && done.(stopped := false) == ProcessAll(env, p, items[..n]).(stopped := false)
    && (done.stopped <==> done.failed != []) && |done.failed| <= 1
    && (if done.failed == [] then n == |items| else n > 0 && done.failed[0].change == items[n - 1].change)
    && (done.failed == [] ==> forall w | w in done.requests :: env.answer(w) == Accept)
    && (forall i | 0 <= i < |done.requests| - 1 :: env.answer(done.requests[i]) == Accept)
  }

  lemma {:induction false} StrictStopsAt(env: Env, p: Progress, items: seq<Item>) returns (n: nat)
    requires env.stopOnError && !p.stopped && p.failed == [] && p.requests == []
    ensures StopsAt(env, p, items, Process(env, p, items), n)
  {
    n := |items|;
    if items != [] {
      var front, last := items[..|items| - 1], items[|items| - 1];
      n := StrictStopsAt(env, p, front);
      assert front[..n] == items[..n];
      if !Process(env, p, front).stopped {
        n := |items|;
        assert items[..n] == items;
        StrictStep(env, Process(env, p, front), ProcessAll(env, p, front), last);
      }
    }
  }

  lemma StrictStep(env: Env, p: Progress, q: Progress, item: Item)
    requires env.stopOnError && !p.stopped && p.failed == [] && p == q.(stopped := false)
    requires forall w | w in p.requests :: env.answer(w) == Accept
    ensures var done := Step(env, p, item);
            && done.(stopped := false) == Step(env, q, item).(stopped := false)
            && (done.stopped <==> done.failed != []) && |done.failed| <= 1
            && (done.failed != [] ==> done.failed[0].change == item.change)
            && (done.failed == [] ==> forall w | w in done.requests :: env.answer(w) == Accept)
            && (forall i | 0 <= i < |done.requests| - 1 :: env.answer(done.requests[i]) == Accept)
  {
    var done := Step(env, p, item);
    forall i | 0 <= i < |done.requests| - 1 ensures env.answer(done.requests[i]) == Accept {
      assert i < |p.requests| && done.requests[i] == p.requests[i] && p.requests[i] in p.requests;
    }
  }

  lemma {:induction false} ProcessConcat(env: Env, p: Progress, a: seq<Item>, b: seq<Item>)
    ensures Process(env, p, a + b) ==
            if Process(env, p, a).stopped then Process(env, p, a) else Process(env, Process(env, p, a), b)
    decreases |b|
  {
    hide Step;
    if b == [] {
      assert a + b == a;
    } else {
      assert (a + b)[..|a + b| - 1] == a + b[..|b| - 1];
      ProcessConcat(env, p, a, b[..|b| - 1]);
    }
  }

  lemma BeforeGroupsIsOneRun(env: Env, plan: seq<Change>)
    ensures BeforeGroups(env, plan) == Process(env, Start(plan), Points(env, plan) + TreeItems(env, PendingOf(plan)))
  {
    hide Process, PointItems, TreeItems, ByID, PendingOf, UnchangedOf, Present;
    ProcessConcat(env, Start(plan), Points(env, plan), TreeItems(env, PendingOf(plan)));
  }

  lemma StrictGroupsAreOneRun(env: Env, p: Progress, targets: seq<Target>)
    requires env.stopOnError && !FolderCheckFails(env, targets)
    ensures AfterGroups(env, p, targets) ==
            Process(env, p, BlockedItems(env, targets) + GroupItems(env, Writable(env, targets)))
  {
    hide Process, BlockedItems, GroupItems, Writable, FolderCheckFails;
    ProcessConcat(env, p, BlockedItems(env, targets), GroupItems(env, Writable(env, targets)));
  }

  /** The items the run has when a folder could not be asked for: those before the phase of the groups. */
  function Reachable(env: Env, plan: seq<Change>, unknown: bool): seq<Item> {
    if unknown then Points(env, plan) + TreeItems(env, PendingOf(plan)) else AllItems(env, plan)
  }

  /**
   With stop-on-error a run attempts its items one by one up to the first failure of any kind and nothing after
   it; without a failure it attempts them all, or only those before the groups when a folder could not be
   asked for.
   */
  lemma StrictRunStops(env: Env, plan: seq<Change>) returns (n: nat)
    requires env.stopOnError
    ensures var done, unknown := Applied(env, plan), FolderUnknown(env, plan);
            && StopsAt(env, Start(plan), Reachable(env, plan, unknown), done.(stopped := done.failed != []), n)
            && (done.stopped <==> done.failed != [] || unknown)
  {
    hide Process, ProcessAll, BeforeGroups, AfterGroups, TreeItems, GroupItems, BlockedItems, Writable, FolderUnknown,
      FolderCheckFails, PendingOf, UnchangedOf, ByID, Targets, PointItems, Present, Applied, StopsAt;
    var p, targets := BeforeGroups(env, plan), PlanTargets(env, plan);
    var a, b, c := Points(env, plan), TreeItems(env, PendingOf(plan)), BlockedItems(env, targets);
    var d := GroupItems(env, Writable(env, targets));
    AppliedIsPhases(env, plan);
    BeforeGroupsIsOneRun(env, plan);
    FolderCheckIsOfPending(env, plan);
    UnknownEndsGroups(env, p, targets);
    if FolderUnknown(env, plan) {
      n := StrictStopsAt(env, Start(plan), a + b);
      StoppedIsFailed(env, Start(plan), a + b, p, n);
    } else {
      n := StrictStopsAt(env, Start(plan), a + b + (c + d));
      assert a + b + c + d == a + b + (c + d);
      StrictGroupsAreOneRun(env, p, targets);
      ProcessConcat(env, Start(plan), a + b, c + d);
      StoppedIsFailed(env, Start(plan), a + b + (c + d), Process(env, Start(plan), a + b + (c + d)), n);
    }
  }

  lemma StoppedIsFailed(env: Env, p: Progress, items: seq<Item>, done: Progress, n: nat)
    requires StopsAt(env, p, items, done, n)
    ensures done.stopped <==> done.failed != []
    ensures done.(stopped := true).(stopped := done.failed != []) == done
    ensures done.(stopped := done.failed != []) == done
  {
  }

  // ---------------------------------------------------------------------------------------------
  // The report
  // ---------------------------------------------------------------------------------------------

  lemma FailedLeqIsTotalPreorder()
    ensures IsTotalPreorder(FailedLeq)
  {
    hide ChangeLeq;
    ChangeLeqIsTotalPreorder();
  }

  lemma OrderMeansLeq(a: Change, b: Change)
    ensures ChangeLeq(a, b) <==> InPlanOrder(a, b)
  {
    hide StringLeq;
  }

  /** A push reports what it applied and what failed, each entry as it was filed, both in plan order. */
  lemma ReportIsInPlanOrder(p: Progress)
    ensures var report := Sorted(p);
            && multiset(report.applied) == multiset(p.applied) && multiset(report.failed) == multiset(p.failed)
            && (forall i, j | 0 <= i < j < |report.applied| :: InPlanOrder(report.applied[i], report.applied[j]))
            && (forall i, j | 0 <= i < j < |report.failed| ::
                  InPlanOrder(report.failed[i].change, report.failed[j].change))
            && report.stopped == p.stopped
  {
    hide ChangeLeq, InPlanOrder, Sort;
    ChangeLeqIsTotalPreorder();
    FailedLeqIsTotalPreorder();
    SortPermutes(p.applied, ChangeLeq);
    SortPermutes(p.failed, FailedLeq);
    SortSorts(p.applied, ChangeLeq);
    SortSorts(p.failed, FailedLeq);
    forall a, b ensures ChangeLeq(a, b) <==> InPlanOrder(a, b) {
      OrderMeansLeq(a, b);
    }
  }
}
